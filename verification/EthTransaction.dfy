/** Ethereum transactions: the text that is signed, and the signed transaction, as EIP-155 lays them out. */
module EthTransaction {
  import opened Octets
  import opened Rlp
  import AbiSpec

  /** Fields are hexadecimal texts. */
  datatype Transaction = Transaction(nonce: Hex, gasPrice: Hex, gasLimit: Hex, to: Hex, value: Hex, data: Hex,
                                     chainId: Hex)

  type Hash = Bytes -> Bytes

  /** r, s and v from a private key and a digest; of another size when the key is invalid. */
  type Signer = (Bytes, Bytes) -> Bytes

  function Fields(tx: Transaction): seq<Hex> {
    [tx.nonce, tx.gasPrice, tx.gasLimit, tx.to, tx.value, tx.data]
  }

  /** to_rlp_encoded_tx. */
  function ToRlp(tx: Transaction): Hex {
    Encode(tx.nonce, false) + Encode(tx.gasPrice, false) + Encode(tx.gasLimit, false)
    + Encode(tx.to, false) + Encode(tx.value, false) + Encode(tx.data, false)
  }

  /** The text whose digest is signed. */
  function Preimage(tx: Transaction): (r: Hex)
    ensures |r| % 2 == 0
  {
    Encode(ToRlp(tx) + Encode(tx.chainId, false) + [8, 0, 8, 0], true)
  }

  /** hex2dec: reading stops at the largest 32-bit number. */
  function HexToDec(h: Hex): nat {
    if HexValue(h) < TWO_32 then HexValue(h) else TWO_32 - 1
  }

  /** v of the signature, from the chain and the parity of the signer's v; 32-bit arithmetic. */
  function NewV(chainId: Hex, v: Byte): (n: nat)
    ensures n < TWO_32
  {
    (HexToDec(chainId) * 2 + (if (v - 27) % 2 != 0 then 36 else 35)) % TWO_32
  }

  /**
    sign_tx; None where the code reads what is not there: a signature that was not made, a chain that was not
    given.
   */
  function SignTx(tx: Transaction, key: Bytes, hash: Hash, sign: Signer): Option<Hex> {
    var rsv := sign(key, hash(Bin(Preimage(tx))));
    if |rsv| != 65 || tx.chainId == [] then None
    else
      var v := DecToHex(NewV(tx.chainId, rsv[64]));
      Some(Encode(ToRlp(tx) + Encode(v, false) + [10, 0] + Unbin(rsv[..32]) + [10, 0] + Unbin(rsv[32..64]), true))
  }

  // ------------------------------------------------------------- lists of fields

  /** Texts one after the other. */
  function Concat(texts: seq<Hex>): Hex {
    if texts == [] then [] else texts[0] + Concat(texts[1..])
  }

  lemma {:induction false} ConcatAppend(xs: seq<Hex>, ys: seq<Hex>)
    ensures Concat(xs + ys) == Concat(xs) + Concat(ys)
  {
    if xs == [] {
      assert xs + ys == ys;
    } else {
      assert (xs + ys)[1..] == xs[1..] + ys;
      ConcatAppend(xs[1..], ys);
    }
  }

  lemma Three(x: Hex, y: Hex, z: Hex)
    ensures Concat([x, y, z]) == x + y + z
  {
    assert [x, y, z][1..] == [y, z] && [y, z][1..] == [z] && [z][1..] == [];
    assert Concat([z]) == z && Concat([y, z]) == y + z;
  }

  lemma Six(a: Hex, b: Hex, c: Hex, d: Hex, e: Hex, f: Hex)
    ensures Concat([a, b, c, d, e, f]) == a + b + c + d + e + f
  {
    Three(a, b, c);
    Three(d, e, f);
    ConcatAppend([a, b, c], [d, e, f]);
    assert [a, b, c] + [d, e, f] == [a, b, c, d, e, f];
    assert (a + b + c) + (d + e + f) == a + b + c + d + e + f;
  }

  /** The encoding of one field, by name only. */
  ghost predicate IsCode(code: Hex, field: Hex) {
    |code| % 2 == 0 && forall t: Hex {:trigger Encode(t, false)} :: t == field ==> code == Encode(t, false)
  }

  ghost predicate AreCodes(codes: seq<Hex>, fields: seq<Hex>) {
    |codes| == |fields| && forall i {:trigger codes[i]} :: 0 <= i < |codes| ==> IsCode(codes[i], fields[i])
  }

  /** The items hold the bytes of the fields. */
  ghost predicate Hold(items: seq<Item>, fields: seq<Hex>) {
    |items| == |fields| && forall i {:trigger items[i]} :: 0 <= i < |items| ==> Holds(items[i], fields[i])
  }

  ghost predicate Holds(item: Item, field: Hex) {
    !item.list && Carries(item.payload, field)
  }

  predicate FieldsFit(fields: seq<Hex>) {
    forall i {:trigger fields[i]} :: 0 <= i < |fields| ==> (|fields[i]| + 1) / 2 < TWO_31
  }

  /** Whatever follows, the code decodes to the item. */
  ghost predicate CodeOf(code: Hex, item: Item) {
    |code| % 2 == 0 && |code| >= 2 &&
    forall rest: Bytes {:trigger Decode(Bin(code) + rest)} :: Decode(Bin(code) + rest) == Some((item, rest))
  }

  ghost predicate CodesOf(codes: seq<Hex>, items: seq<Item>) {
    |codes| == |items| && forall i {:trigger codes[i]} :: 0 <= i < |codes| ==> CodeOf(codes[i], items[i])
  }

  lemma OneDecodes(code: Hex, field: Hex) returns (item: Item)
    requires IsCode(code, field) && (|field| + 1) / 2 < TWO_31
    ensures CodeOf(code, item) && Holds(item, field)
  {
    NotEmpty(field, false);
    var p := RoundTrip(field, false, []);
    item := Item(false, p);
    forall rest: Bytes ensures Decode(Bin(code) + rest) == Some((item, rest)) {
      var q := RoundTrip(field, false, rest);
      AbiSpec.SameBytes(p, q);
    }
  }

  lemma {:induction false} CodesDecode(codes: seq<Hex>, fields: seq<Hex>) returns (items: seq<Item>)
    requires AreCodes(codes, fields) && FieldsFit(fields)
    ensures CodesOf(codes, items) && Hold(items, fields)
    decreases |codes|
  {
    items := [];
    if codes != [] {
      var n := |codes| - 1;
      assert FieldsFit(fields[..n]);
      var first := CodesDecode(codes[..n], fields[..n]);
      var last := OneDecodes(codes[n], fields[n]);
      items := first + [last];
    }
  }

  /** The text decodes to exactly these items. */
  ghost predicate Reads(text: Hex, items: seq<Item>) {
    |text| % 2 == 0 && forall t: Hex {:trigger Bin(t)} :: t == text && |t| % 2 == 0 ==> DecodeAll(Bin(t)) == Some(items)
  }

  /** Codes one after the other decode to their items. */
  lemma {:induction false} ManyDecode(codes: seq<Hex>, items: seq<Item>)
    requires CodesOf(codes, items)
    ensures |Concat(codes)| >= 2 * |codes| && Reads(Concat(codes), items)
  {
    if items != [] {
      ManyDecode(codes[1..], items[1..]);
      OneMore(codes[0], items[0], Concat(codes[1..]), items[1..]);
      assert items == [items[0]] + items[1..];
    }
  }

  lemma OneMore(code: Hex, item: Item, more: Hex, items: seq<Item>)
    requires CodeOf(code, item) && Reads(more, items)
    ensures Reads(code + more, [item] + items)
  {
    assert DecodeAll(Bin(more)) == Some(items);
    BinAppend(code, more);
    DecodeCons(Bin(code) + Bin(more), item, Bin(more), items);
  }

  lemma DecodeCons(b: Bytes, first: Item, rest: Bytes, more: seq<Item>)
    requires Decode(b) == Some((first, rest)) && |rest| < |b| && DecodeAll(rest) == Some(more)
    ensures DecodeAll(b) == Some([first] + more)
  {
  }

  /** b is a list, with nothing after it, of these items. */
  ghost predicate ListOf(b: Bytes, items: seq<Item>) {
    match Decode(b)
    case None => false
    case Some(r) => r.0.list && r.1 == [] && DecodeAll(r.0.payload) == Some(items)
  }

  /** At least two encoded fields, as a list. */
  lemma ListDecodes(text: Hex, codes: seq<Hex>, fields: seq<Hex>) returns (items: seq<Item>)
    requires AreCodes(codes, fields) && FieldsFit(fields) && |fields| >= 2 && text == Concat(codes) && |text| < TWO_32
    ensures ListOf(Bin(Encode(text, true)), items) && Hold(items, fields)
  {
    items := CodesDecode(codes, fields);
    ManyDecode(codes, items);
    var p := RoundTrip(text, true, []);
    BinValue(text);
    AbiSpec.SameBytes(p, Bin(text));
    var e := Bin(Encode(text, true));
    assert e + [] == e;
  }

  // --------------------------------------------------------------- the two texts

  lemma Codes(tx: Transaction) returns (codes: seq<Hex>)
    ensures AreCodes(codes, Fields(tx)) && Concat(codes) == ToRlp(tx)
  {
    codes := [Encode(tx.nonce, false), Encode(tx.gasPrice, false), Encode(tx.gasLimit, false),
              Encode(tx.to, false), Encode(tx.value, false), Encode(tx.data, false)];
    Six(codes[0], codes[1], codes[2], codes[3], codes[4], codes[5]);
  }

  lemma EmptyCode()
    ensures IsCode([8, 0], [])
  {
  }

  lemma WordCode(b: Bytes)
    requires |b| == 32
    ensures IsCode([10, 0] + Unbin(b), Unbin(b))
  {
    assert Digits(160) == [10] + [0];
  }

  /** The six fields as the first items, each at its place. */
  ghost predicate SixFields(items: seq<Item>, tx: Transaction) {
    && |items| >= 6
    && Holds(items[0], tx.nonce) && Holds(items[1], tx.gasPrice) && Holds(items[2], tx.gasLimit)
    && Holds(items[3], tx.to) && Holds(items[4], tx.value) && Holds(items[5], tx.data)
  }

  /** EIP-155: what is signed is the list of the six fields, the chain, and two empty strings. */
  lemma SignedText(tx: Transaction) returns (items: seq<Item>)
    requires FieldsFit(Fields(tx) + [tx.chainId]) && |ToRlp(tx) + Encode(tx.chainId, false)| + 4 < TWO_32
    ensures ListOf(Bin(Preimage(tx)), items) && |items| == 9 && SixFields(items, tx) && Holds(items[6], tx.chainId)
    ensures items[7] == items[8] == Item(false, [])
  {
    var chain := Encode(tx.chainId, false);
    var codes := Codes(tx);
    var more: seq<Hex> := [chain, [8, 0], [8, 0]];
    EmptyCode();
    Three(chain, [8, 0], [8, 0]);
    ConcatAppend(codes, more);
    var fields := Fields(tx) + [tx.chainId, [], []];
    var text := ToRlp(tx) + chain + [8, 0, 8, 0];
    assert text == ToRlp(tx) + (chain + [8, 0] + [8, 0]);
    CodesAppend(codes, Fields(tx), more, [tx.chainId, [], []]);
    FitsAppend(tx);
    items := ListDecodes(text, codes + more, fields);
    HeldSix(items, fields, tx);
    assert fields[6] == tx.chainId && fields[7] == fields[8] == [];
  }

  lemma HeldSix(items: seq<Item>, fields: seq<Hex>, tx: Transaction)
    requires Hold(items, fields) && Fields(tx) <= fields
    ensures SixFields(items, tx)
  {
    var six := Fields(tx);
    assert forall i :: 0 <= i < 6 ==> fields[i] == six[i];
  }

  lemma CodesAppend(c1: seq<Hex>, f1: seq<Hex>, c2: seq<Hex>, f2: seq<Hex>)
    requires AreCodes(c1, f1) && AreCodes(c2, f2)
    ensures AreCodes(c1 + c2, f1 + f2)
  {
  }

  lemma FitsAppend(tx: Transaction)
    requires FieldsFit(Fields(tx) + [tx.chainId])
    ensures FieldsFit(Fields(tx) + [tx.chainId, [], []]) && FieldsFit(Fields(tx))
  {
    var all := Fields(tx) + [tx.chainId];
    var more := Fields(tx) + [tx.chainId, [], []];
    forall i | 0 <= i < |more| ensures (|more[i]| + 1) / 2 < TWO_31 {
      if i < 7 {
        assert more[i] == all[i];
      }
    }
    forall i | 0 <= i < 6 ensures (|Fields(tx)[i]| + 1) / 2 < TWO_31 {
      assert Fields(tx)[i] == all[i];
    }
  }

  // ------------------------------------------------------------ the signed result

  /** What is sent: the six fields, then v, r and s. */
  ghost function SignedFields(tx: Transaction, rsv: Bytes): seq<Hex>
    requires |rsv| == 65
  {
    Fields(tx) + [DecToHex(NewV(tx.chainId, rsv[64])), Unbin(rsv[..32]), Unbin(rsv[32..64])]
  }

  /** The text before the last encoding, as a concatenation of nine encoded fields. */
  lemma SignedCodes(tx: Transaction, rsv: Bytes) returns (codes: seq<Hex>, text: Hex)
    requires |rsv| == 65
    ensures AreCodes(codes, SignedFields(tx, rsv)) && text == Concat(codes)
    ensures text == ToRlp(tx) + Encode(DecToHex(NewV(tx.chainId, rsv[64])), false)
                    + [10, 0] + Unbin(rsv[..32]) + [10, 0] + Unbin(rsv[32..64])
  {
    var v := DecToHex(NewV(tx.chainId, rsv[64]));
    var code, r, s := Encode(v, false), [10, 0] + Unbin(rsv[..32]), [10, 0] + Unbin(rsv[32..64]);
    codes := Codes(tx);
    WordCode(rsv[..32]);
    WordCode(rsv[32..64]);
    Three(code, r, s);
    ConcatAppend(codes, [code, r, s]);
    CodesAppend(codes, Fields(tx), [code, r, s], [v, Unbin(rsv[..32]), Unbin(rsv[32..64])]);
    text := Concat(codes) + (code + r + s);
    codes := codes + [code, r, s];
    Flatten(ToRlp(tx), code, Unbin(rsv[..32]), Unbin(rsv[32..64]));
  }

  lemma Flatten(x: Hex, code: Hex, r: Hex, s: Hex)
    ensures x + (code + ([10, 0] + r) + ([10, 0] + s)) == x + code + [10, 0] + r + [10, 0] + s
  {
  }

  /**
    A signed transaction is a list of nine: the six fields, each at its place, v as the chain and the
    signature ask for it, and the two halves of the signature.
   */
  lemma SignedTransaction(tx: Transaction, key: Bytes, hash: Hash, sign: Signer) returns (items: seq<Item>)
    requires FieldsFit(Fields(tx)) && tx.chainId != [] && |sign(key, hash(Bin(Preimage(tx))))| == 65
    requires |ToRlp(tx)| + 150 < TWO_32
    ensures var r := SignTx(tx, key, hash, sign);
            r.Some? && |r.value| % 2 == 0 && ListOf(Bin(r.value), items) && |items| == 9 && SixFields(items, tx)
    ensures var rsv := sign(key, hash(Bin(Preimage(tx))));
            && !items[6].list && AbiSpec.FromBigEndian(items[6].payload) == NewV(tx.chainId, rsv[64])
            && items[7] == Item(false, rsv[..32]) && items[8] == Item(false, rsv[32..64])
  {
    var rsv := sign(key, hash(Bin(Preimage(tx))));
    var v := NewV(tx.chainId, rsv[64]);
    var codes, text := SignedCodes(tx, rsv);
    VCode(v);
    SignedFit(tx, rsv);
    var fields := SignedFields(tx, rsv);
    items := ListDecodes(text, codes, fields);
    HeldSix(items, fields, tx);
    HeldLast(items, fields, tx, rsv);
  }

  lemma HeldLast(items: seq<Item>, fields: seq<Hex>, tx: Transaction, rsv: Bytes)
    requires |rsv| == 65 && fields == SignedFields(tx, rsv) && Hold(items, fields)
    ensures !items[6].list && AbiSpec.FromBigEndian(items[6].payload) == NewV(tx.chainId, rsv[64])
    ensures items[7] == Item(false, rsv[..32]) && items[8] == Item(false, rsv[32..64])
  {
    var v := NewV(tx.chainId, rsv[64]);
    assert Holds(items[6], fields[6]) && Holds(items[7], fields[7]) && Holds(items[8], fields[8]);
    DigitsValue(v);
    EvenValue(Digits(v));
    HeldBytes(items[7], rsv[..32]);
    HeldBytes(items[8], rsv[32..64]);
  }

  lemma HeldBytes(item: Item, b: Bytes)
    requires Holds(item, Unbin(b))
    ensures item == Item(false, b)
  {
    BinValue(Unbin(b));
    BinUnbin(b);
    AbiSpec.SameBytes(item.payload, b);
  }

  lemma VCode(v: nat)
    requires v < TWO_32
    ensures |DecToHex(v)| <= 8 && |Encode(DecToHex(v), false)| <= 10
  {
    FourBytes(v);
    ShortCode(DecToHex(v));
  }

  lemma ShortCode(s: Hex)
    requires |s| % 2 == 0 && 0 < |s| <= 8
    ensures |Encode(s, false)| <= 2 + |s|
  {
    assert |s| % TWO_32 == |s|;
    OneByte(128 + |s| / 2);
  }

  lemma SignedFit(tx: Transaction, rsv: Bytes)
    requires |rsv| == 65 && FieldsFit(Fields(tx))
    ensures FieldsFit(SignedFields(tx, rsv))
  {
    VCode(NewV(tx.chainId, rsv[64]));
    var fields := SignedFields(tx, rsv);
    forall i | 0 <= i < |fields| ensures (|fields[i]| + 1) / 2 < TWO_31 {
      if i < 6 {
        assert fields[i] == Fields(tx)[i];
      }
    }
  }

  /** v is 35 or 36 more than twice the chain, by the parity of the signature, as long as that stays within 32 bits. */
  lemma VOfChain(chainId: Hex, v: Byte)
    ensures AbiSpec.FromBigEndian(Bin(DecToHex(NewV(chainId, v)))) == NewV(chainId, v)
    ensures NewV(chainId, v) == 2 * HexValue(chainId) + (if v % 2 == 0 then 36 else 35)
            <==> 2 * HexValue(chainId) + (if v % 2 == 0 then 36 else 35) < TWO_32
  {
    DecToHexValue(NewV(chainId, v));
    Parity(v);
    Wrapped(HexValue(chainId), if v % 2 == 0 then 36 else 35);
  }

  lemma Parity(v: int)
    ensures (v - 27) % 2 != 0 <==> v % 2 == 0
  {
  }

  lemma Wrapped(chain: nat, k: nat)
    requires k == 35 || k == 36
    ensures ((if chain < TWO_32 then chain else TWO_32 - 1) * 2 + k) % TWO_32 == 2 * chain + k <==>
              2 * chain + k < TWO_32
  {
  }
}
