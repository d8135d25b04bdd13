/** The hash miner: a big-endian counter incremented in place, and a search for leading zero bits. */
module HashMiner {
  import opened Octets
  import opened AbiSpec

  // ---------------------------------------------------------------- the counter

  lemma {:induction false} FromBigEndianRange(s: Bytes)
    ensures FromBigEndian(s) < Pow256(|s|)
  {
    if s != [] {
      FromBigEndianRange(s[..|s| - 1]);
    }
  }

  /** Bytes of a given number are determined by their value. */
  lemma {:induction false} BytesOfValue(s: Bytes)
    ensures BigEndian(FromBigEndian(s), |s|) == s
  {
    if s != [] {
      BytesOfValue(s[..|s| - 1]);
      assert s == s[..|s| - 1] + [s[|s| - 1]];
    }
  }

  /** Where the last k bytes are 255, adding one clears them and carries into the byte before. */
  lemma {:induction false} Carry(s: Bytes, t: Bytes, k: nat)
    requires |s| == |t| && k < |s| && s[|s| - 1 - k] < 255
    requires forall i :: |s| - k <= i < |s| ==> s[i] == 255 && t[i] == 0
    requires t[|s| - 1 - k] == s[|s| - 1 - k] + 1 && t[..|s| - 1 - k] == s[..|s| - 1 - k]
    ensures FromBigEndian(t) == FromBigEndian(s) + 1
    decreases k
  {
    var n := |s| - 1;
    if k == 0 {
      assert s[..n] == t[..n];
    } else {
      assert s[..n][..n - k] == s[..n - k] && t[..n][..n - k] == t[..n - k];
      Carry(s[..n], t[..n], k - 1);
    }
  }

  lemma {:induction false} AllOnes(s: Bytes)
    requires forall i :: 0 <= i < |s| ==> s[i] == 255
    ensures FromBigEndian(s) == Pow256(|s|) - 1
  {
    if s != [] {
      AllOnes(s[..|s| - 1]);
    }
  }

  /**
    next_nonce: one is added to the number in the array.  False when all bytes are 255, where the
    carry would leave the array.
   */
  method NextNonce(nonce: array<Byte>) returns (ok: bool)
    modifies nonce
    ensures ok <==> FromBigEndian(old(nonce[..])) + 1 < Pow256(nonce.Length)
    ensures ok ==> FromBigEndian(nonce[..]) == FromBigEndian(old(nonce[..])) + 1
  {
    ghost var before := nonce[..];
    var current := nonce.Length - 1;
    while current >= 0 && nonce[current] == 255
      invariant -1 <= current < nonce.Length
      invariant forall i :: 0 <= i <= current ==> nonce[i] == before[i]
      invariant forall i :: current < i < nonce.Length ==> before[i] == 255 && nonce[i] == 0
      decreases current
    {
      nonce[current] := 0;
      current := current - 1;
    }
    FromBigEndianRange(before);
    if current < 0 {
      AllOnes(before);
      return false;
    }
    nonce[current] := nonce[current] + 1;
    Carry(before, nonce[..], nonce.Length - 1 - current);
    FromBigEndianRange(nonce[..]);
    ok := true;
  }

  // ------------------------------------------------------------- leading zeros

  /** Bit i of the bytes, most significant first. */
  function Bit(s: Bytes, i: nat): nat
    requires i < 8 * |s|
  {
    s[i / 8] / Pow2(7 - i % 8) % 2
  }

  ghost predicate LeadingZeroBits(s: Bytes, k: int)
    requires k <= 8 * |s|
  {
    forall i {:trigger Bit(s, i)} :: 0 <= i < k ==> Bit(s, i) == 0
  }

  /** Bit j of a byte is clear. */
  predicate BitClear(b: Byte, j: nat)
    requires j < 8
  {
    b / Pow2(7 - j) % 2 == 0
  }

  predicate TopBitsClear(b: Byte, z: nat)
    requires z <= 8
  {
    forall j :: 0 <= j < z ==> BitClear(b, j)
  }

  lemma OwnRemainder(b: nat, p: nat)
    requires p > 0
    ensures b % p == b <==> b < p
  {
  }

  lemma HalfBit(b: nat, p: nat)
    requires 0 < p && b < 2 * p
    ensures b / p % 2 == 0 <==> b < p
  {
    if b < p {
      assert b / p == 0;
    } else {
      assert b == p + (b - p);
      assert b / p == 1;
    }
  }

  /** The first z bits of a byte are clear exactly when masking them away changes nothing. */
  lemma {:induction false} MaskTest(b: Byte, z: nat)
    requires z <= 8
    ensures TopBitsClear(b, z) <==> b < Pow2(8 - z)
    ensures b < Pow2(8 - z) <==> b % Pow2(8 - z) == b
  {
    OwnRemainder(b, Pow2(8 - z));
    if z == 0 {
      assert Pow2(2) == 4 && Pow2(4) == 16 && Pow2(6) == 64;
      assert Pow2(8) == 256;
    } else {
      MaskTest(b, z - 1);
      var p := Pow2(8 - z);
      assert Pow2(9 - z) == 2 * p;
      assert BitClear(b, z - 1) <==> b / p % 2 == 0;
      if b < 2 * p {
        HalfBit(b, p);
      }
      assert TopBitsClear(b, z) <==> TopBitsClear(b, z - 1) && BitClear(b, z - 1);
    }
  }

  /** The leading bits, byte by byte. */
  lemma WholeByte(s: Bytes, i: nat)
    requires i < |s| && LeadingZeroBits(s, 8 * i)
    ensures s[i] == 0 <==> LeadingZeroBits(s, 8 * i + 8)
  {
    MaskTest(s[i], 8);
    LastByte(s, i, 8);
  }

  lemma BitOf(s: Bytes, i: nat, j: nat)
    requires i < |s| && j < 8
    ensures Bit(s, 8 * i + j) == 0 <==> BitClear(s[i], j)
  {
    assert (8 * i + j) / 8 == i && (8 * i + j) % 8 == j;
  }

  lemma LastByte(s: Bytes, i: nat, z: nat)
    requires i < |s| && z <= 8 && LeadingZeroBits(s, 8 * i)
    ensures TopBitsClear(s[i], z) <==> LeadingZeroBits(s, 8 * i + z)
  {
    if TopBitsClear(s[i], z) {
      forall k | 0 <= k < 8 * i + z ensures Bit(s, k) == 0 {
        if k >= 8 * i {
          BitOf(s, i, k - 8 * i);
        }
      }
    }
    if LeadingZeroBits(s, 8 * i + z) {
      forall j | 0 <= j < z ensures BitClear(s[i], j) {
        BitOf(s, i, j);
      }
    }
  }

  /** is_valid_next_block_hash: whole bytes first, then what is left under a mask. */
  method IsValidHash(hash: Bytes, zeros: int) returns (valid: bool)
    requires zeros <= 8 * |hash|
    ensures valid <==> LeadingZeroBits(hash, zeros)
  {
    var current, left := 0, zeros;
    while left - 8 >= 0
      invariant current <= |hash| && left == zeros - 8 * current && (current > 0 ==> left >= 0)
      invariant LeadingZeroBits(hash, 8 * current)
    {
      WholeByte(hash, current);
      if hash[current] != 0 {
        return false;
      }
      current := current + 1;
      left := left - 8;
    }
    if left > 0 {
      MaskTest(hash[current], left);
      LastByte(hash, current, left);
      valid := hash[current] % Pow2(8 - left) == hash[current];
    } else {
      valid := true;
    }
  }

  // --------------------------------------------------------------------- mining

  /** The nonce of the given length with value n makes a digest with enough leading zeros. */
  ghost predicate Passes(hash: Bytes -> Bytes, block: Bytes, length: nat, n: nat, zeros: int) {
    var digest := hash(block + BigEndian(n, length));
    zeros <= 8 * |digest| && LeadingZeroBits(digest, zeros)
  }

  /** No positive nonce below `limit` passes. */
  ghost predicate NoneBelow(hash: Bytes -> Bytes, block: Bytes, length: nat, limit: nat, zeros: int) {
    forall n {:trigger Passes(hash, block, length, n, zeros)} :: 0 < n < limit ==>
          !Passes(hash, block, length, n, zeros)
  }

  /** The next nonce, and whether it passes. */
  method TryNext(hash: Bytes -> Bytes, block: Bytes, nonce: array<Byte>, zeros: int) returns (ok: bool, found: bool)
    requires forall b: Bytes {:trigger hash(b)} :: |hash(b)| >= nonce.Length
    requires zeros <= 8 * nonce.Length
    modifies nonce
    ensures ok <==> FromBigEndian(old(nonce[..])) + 1 < Pow256(nonce.Length)
    ensures ok ==> FromBigEndian(nonce[..]) == FromBigEndian(old(nonce[..])) + 1
    ensures ok ==> (found <==> Passes(hash, block, nonce.Length, FromBigEndian(nonce[..]), zeros))
  {
    found := false;
    ok := NextNonce(nonce);
    if ok {
      BytesOfValue(nonce[..]);
      var digest := hash(block + nonce[..]);
      found := IsValidHash(digest, zeros);
    }
  }

  /**
    mine: the smallest positive nonce that passes.  None when more zeros are asked for than a nonce
    has bits, or when no nonce passes, where the counter would overflow.
   */
  method Mine(hash: Bytes -> Bytes, block: Bytes, length: nat, zeros: int) returns (r: Option<Bytes>)
    requires forall b: Bytes {:trigger hash(b)} :: |hash(b)| >= length
    ensures r.Some? ==> |r.value| == length && 0 < FromBigEndian(r.value)
    ensures r.Some? ==> zeros <= 8 * |hash(block + r.value)| && LeadingZeroBits(hash(block + r.value), zeros)
    ensures r.Some? ==> Passes(hash, block, length, FromBigEndian(r.value), zeros)
    ensures r.Some? ==> NoneBelow(hash, block, length, FromBigEndian(r.value), zeros)
    ensures r.None? <==> zeros > 8 * length || NoneBelow(hash, block, length, Pow256(length), zeros)
  {
    if zeros > length * 8 {
      return None;
    }
    var nonce := new Byte[length](_ => 0);
    AllZero(nonce[..]);
    ghost var value := 0;
    var found := false;
    while !found
      invariant nonce.Length == length && value == FromBigEndian(nonce[..]) < Pow256(length)
      invariant NoneBelow(hash, block, length, value, zeros)
      invariant value > 0 ==> (found <==> Passes(hash, block, length, value, zeros))
      invariant found ==> 0 < value
      decreases Pow256(length) - value, !found
    {
      var ok;
      ok, found := TryNext(hash, block, nonce, zeros);
      if !ok {
        return None;
      }
      value := value + 1;
    }
    BytesOfValue(nonce[..]);
    r := Some(nonce[..]);
  }

  lemma {:induction false} AllZero(s: Bytes)
    requires forall i :: 0 <= i < |s| ==> s[i] == 0
    ensures FromBigEndian(s) == 0
  {
    if s != [] {
      AllZero(s[..|s| - 1]);
    }
  }
}
