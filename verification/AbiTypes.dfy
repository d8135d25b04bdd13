/**
  Contract ABI types, their printed form, and the text-level classification of it.

  The codec never sees a type tree: it works on the printed name, looking for the last array
  suffix.  The lemmas here show that this reading of the text agrees with the tree.
 */
module AbiTypes {

  /** Types of one word. */
  datatype Scalar = Bool | UInt(bits: nat) | Int(bits: nat) | FixedBytes(size: nat) | Function | Address

  /** Blob is "string" or "bytes"; array length 0 is the suffix "[]". */
  datatype Ty = Word(scalar: Scalar) | Blob(text: bool) | Array(elem: Ty, len: nat)

  /** Dynamic types as the Contract ABI Specification defines them. */
  predicate IsDynamic(t: Ty) {
    match t
    case Word(_) => false
    case Blob(_) => true
    case Array(e, k) => k == 0 || IsDynamic(e)
  }

  // ------------------------------------------------------------------ printing

  function Digit(d: nat): (c: char)
    requires d < 10
    ensures '0' <= c <= '9' && c as int - '0' as int == d
  {
    ('0' as int + d) as char
  }

  function Dec(n: nat): string {
    if n < 10 then [Digit(n)] else Dec(n / 10) + [Digit(n % 10)]
  }

  function ScalarName(s: Scalar): string {
    match s
    case Bool => "bool"
    case UInt(n) => "uint" + Dec(n)
    case Int(n) => "int" + Dec(n)
    case FixedBytes(n) => "bytes" + Dec(n)
    case Function => "function"
    case Address => "address"
  }

  function Print(t: Ty): string {
    match t
    case Word(s) => ScalarName(s)
    case Blob(text) => if text then "string" else "bytes"
    case Array(e, k) => Print(e) + Suffix(k)
  }

  function Suffix(k: nat): string {
    if k == 0 then "[]" else "[" + Dec(k) + "]"
  }

  /** Names as the Contract ABI Specification writes them. */
  lemma Names()
    ensures Print(Array(Array(Word(UInt(256)), 3), 0)) == "uint256[3][]"
    ensures Print(Array(Array(Blob(true), 0), 12)) == "string[][12]"
    ensures Print(Word(FixedBytes(32))) == "bytes32" && Print(Word(Int(8))) == "int8"
  {
    assert Dec(25) == "2" + "5";
    assert Dec(256) == "25" + "6" && Dec(12) == "1" + "2" && Dec(32) == "3" + "2" && Dec(3) == "3" && Dec(8) == "8";
  }

  // ------------------------------------------------------------- reading text

  datatype Kind = Numerical | FixedSizeBytes | DynamicSizeBytes | Text
  datatype ArrayKind = NoArray | FixedArray | DynamicArray
  datatype Info = Info(str: string, kind: Kind, arrayKind: ArrayKind, arrayLen: nat)

  /** Position of the last c in s, -1 if there is none. */
  function LastIndexOf(s: string, c: char): (k: int)
    ensures -1 <= k < |s|
    ensures k >= 0 ==> s[k] == c
    ensures forall i :: k < i < |s| ==> s[i] != c
  {
    if s == [] then -1
    else if s[|s| - 1] == c then |s| - 1
    else LastIndexOf(s[..|s| - 1], c)
  }

  /** Position of the first c in s from `from` on, -1 if there is none. */
  function IndexFrom(s: string, c: char, from: nat): (k: int)
    ensures k == -1 || from <= k < |s|
    ensures k >= 0 ==> s[k] == c && forall i :: from <= i < k ==> s[i] != c
    ensures k == -1 ==> forall i :: from <= i < |s| ==> s[i] != c
    decreases |s| - from
  {
    if from >= |s| then -1
    else if s[from] == c then from
    else IndexFrom(s, c, from + 1)
  }

  /** The number that a text of digits stands for. */
  function StoI(s: string): nat {
    if s == [] || !('0' <= s[|s| - 1] <= '9') then 0
    else StoI(s[..|s| - 1]) * 10 + (s[|s| - 1] as int - '0' as int)
  }

  function BaseKind(s: string): Kind {
    if s == "function" || ("bytes" <= s && |s| > 5) || s == "address" then FixedSizeBytes
    else if s == "bytes" then DynamicSizeBytes
    else if s == "string" then Text
    else Numerical
  }

  function GetType(s: string): Info
    decreases |s|
  {
    var k1 := LastIndexOf(s, '[');
    var k2 := if k1 > 0 then IndexFrom(s, ']', k1 + 1) else -1;
    if k1 > 0 && k2 != -1 then
      var len := if k1 < k2 - 1 then StoI(s[k1 + 1..k2]) else 0;
      var elem := GetType(s[..k1]);
      Info(s, elem.kind,
           if elem.arrayKind == DynamicArray || len == 0 || elem.kind == DynamicSizeBytes || elem.kind == Text
           then DynamicArray else FixedArray,
           len)
    else
      Info(s, BaseKind(s), NoArray, 0)
  }

  /** The last array suffix is cut out; a text without one is reported and gives an empty type. */
  function ExtractArrayType(s: string): Info {
    var k1 := LastIndexOf(s, '[');
    var k2 := if k1 > 0 then IndexFrom(s, ']', k1 + 1) else -1;
    if k1 > 0 && k2 != -1 then GetType(s[..k1] + s[k2 + 1..])
    else Info("", Numerical, NoArray, 0)
  }

  // -------------------------------------------------------- text against tree

  function KindOf(t: Ty): Kind {
    match t
    case Word(s) => if s.Bool? || s.UInt? || s.Int? then Numerical else FixedSizeBytes
    case Blob(text) => if text then Text else DynamicSizeBytes
    case Array(e, _) => KindOf(e)
  }

  /** What the codec should know of a type. */
  function Describe(t: Ty): Info {
    Info(Print(t), KindOf(t),
         if !t.Array? then NoArray else if IsDynamic(t) then DynamicArray else FixedArray,
         if t.Array? then t.len else 0)
  }

  /** `info` is the description of t; stated so that proofs look into Describe only on demand. */
  ghost predicate Reads(info: Info, t: Ty) {
    forall x: Ty {:trigger Describe(x)} :: x == t ==> info == Describe(x)
  }

  ghost predicate Spells(s: string, t: Ty) {
    forall x: Ty {:trigger Print(x)} :: x == t ==> s == Print(x)
  }

  lemma ReadsFacts(info: Info, t: Ty)
    requires Reads(info, t)
    ensures info.arrayKind == FixedArray <==> t.Array? && !IsDynamic(t)
    ensures info.arrayKind == DynamicArray <==> t.Array? && IsDynamic(t)
    ensures t.Array? ==> info.arrayLen == t.len
    ensures !t.Array? ==> (info.kind == Text || info.kind == DynamicSizeBytes <==> t.Blob?)
    ensures t.Word? ==> (info.kind == FixedSizeBytes <==> !(t.scalar.Bool? || t.scalar.UInt? || t.scalar.Int?))
    ensures info.kind == DynamicSizeBytes || info.kind == Text ==> IsDynamic(t)
    ensures Spells(info.str, t)
  {
    assert info == Describe(t);
    KindIsDynamic(t);
  }

  lemma {:induction false} DecDigits(n: nat)
    ensures |Dec(n)| > 0 && forall i :: 0 <= i < |Dec(n)| ==> '0' <= Dec(n)[i] <= '9'
    ensures StoI(Dec(n)) == n
  {
    if n >= 10 {
      DecDigits(n / 10);
      assert Dec(n)[..|Dec(n)| - 1] == Dec(n / 10);
    } else {
      assert StoI([Digit(n)][..0]) == 0;
    }
  }

  predicate IsDigits(s: string, lo: nat, hi: nat)
    requires hi <= |s|
  {
    forall i :: lo <= i < hi ==> '0' <= s[i] <= '9'
  }

  lemma LastOpen(s: string, n: nat)
    requires n + 1 < |s| && s[n] == '[' && s[|s| - 1] == ']' && IsDigits(s, n + 1, |s| - 1)
    ensures LastIndexOf(s, '[') == n
    ensures IndexFrom(s, ']', n + 1) == |s| - 1
  {
  }

  /** The text s ends in the suffix for length k, which begins at n. */
  predicate Suffixed(s: string, n: nat, k: nat) {
    && 0 < n && n + 2 <= |s| && LastIndexOf(s, '[') == n && IndexFrom(s, ']', n + 1) == |s| - 1
    && (if n < |s| - 2 then StoI(s[n + 1..|s| - 1]) else 0) == k
  }

  lemma SuffixedBy(a: string, k: nat)
    requires a != ""
    ensures Suffixed(a + Suffix(k), |a|, k) && (a + Suffix(k))[..|a|] == a
  {
    SuffixEnds(k);
    SuffixedByText(a, Suffix(k), k);
  }

  lemma SuffixedByText(a: string, x: string, k: nat)
    requires a != "" && |x| >= 2 && x[0] == '[' && x[|x| - 1] == ']' && IsDigits(x, 1, |x| - 1)
    requires (if |x| > 2 then StoI(x[1..|x| - 1]) else 0) == k
    ensures Suffixed(a + x, |a|, k) && (a + x)[..|a|] == a
  {
    var s := a + x;
    assert s[|a| + 1..|s| - 1] == x[1..|x| - 1];
    assert forall i :: |a| <= i < |s| ==> s[i] == x[i - |a|];
    LastOpen(s, |a|);
  }

  lemma SuffixEnds(k: nat)
    ensures var x := Suffix(k);
            && |x| >= 2 && x[0] == '[' && x[|x| - 1] == ']' && IsDigits(x, 1, |x| - 1)
            && (if |x| > 2 then StoI(x[1..|x| - 1]) else 0) == k
  {
    DecDigits(k);
    if k != 0 {
      assert Suffix(k)[1..|Suffix(k)| - 1] == Dec(k);
      assert forall i :: 1 <= i < |Suffix(k)| - 1 ==> Suffix(k)[i] == Dec(k)[i - 1];
    }
  }

  lemma {:induction false} PrintNonEmpty(t: Ty)
    ensures |Print(t)| > 0
  {
    if t.Array? {
      PrintNonEmpty(t.elem);
    }
  }

  /** A name followed by a number holds no bracket. */
  lemma Numbered(name: string, n: nat)
    requires forall i :: 0 <= i < |name| ==> name[i] != '['
    ensures LastIndexOf(name + Dec(n), '[') == -1 && |name + Dec(n)| > |name| && name <= name + Dec(n)
  {
    DecDigits(n);
    var s := name + Dec(n);
    assert forall i :: 0 <= i < |s| ==> s[i] == if i < |name| then name[i] else Dec(n)[i - |name|];
  }

  lemma NoBracket(s: Scalar)
    ensures LastIndexOf(ScalarName(s), '[') == -1
  {
    match s
    case UInt(n) => Numbered("uint", n);
    case Int(n) => Numbered("int", n);
    case FixedBytes(n) => Numbered("bytes", n);
    case _ =>
  }

  lemma BaseKindAgrees(t: Ty)
    requires !t.Array?
    ensures BaseKind(Print(t)) == KindOf(t)
  {
    match t
    case Blob(text) => assert |Print(t)| == 5 || Print(t)[0] == 's';
    case Word(s) =>
      match s
      case UInt(n) => assert Print(t)[0] == 'u';
      case Int(n) => assert Print(t)[0] == 'i';
      case FixedBytes(n) =>
        DecDigits(n);
        assert Print(t)[0] == 'b' && "bytes" <= Print(t);
      case Bool => assert Print(t)[1] == 'o';
      case Function =>
      case Address =>
  }

  lemma GetTypeOfArray(s: string, n: nat, k: nat)
    requires Suffixed(s, n, k)
    ensures var elem := GetType(s[..n]);
            GetType(s) == Info(s, elem.kind,
                               if elem.arrayKind == DynamicArray || k == 0
                                  || elem.kind == DynamicSizeBytes || elem.kind == Text
                               then DynamicArray else FixedArray,
                               k)
  {
  }

  /** Reading the printed type gives its description, for any depth of array suffixes. */
  lemma {:induction false} GetTypeAgrees(t: Ty)
    ensures GetType(Print(t)) == Describe(t)
  {
    if t.Array? {
      var a := Print(t.elem);
      PrintNonEmpty(t.elem);
      SuffixedBy(a, t.len);
      GetTypeOfArray(a + Suffix(t.len), |a|, t.len);
      GetTypeAgrees(t.elem);
      KindIsDynamic(t.elem);
    } else {
      if t.Word? {
        NoBracket(t.scalar);
      }
      BaseKindAgrees(t);
    }
  }

  lemma {:induction false} KindIsDynamic(t: Ty)
    ensures KindOf(t) == DynamicSizeBytes || KindOf(t) == Text ==> IsDynamic(t)
    ensures !t.Array? && IsDynamic(t) ==> KindOf(t) == DynamicSizeBytes || KindOf(t) == Text
  {
    if t.Array? {
      KindIsDynamic(t.elem);
    }
  }

  lemma ExtractOfArray(s: string, n: nat, k: nat)
    requires Suffixed(s, n, k)
    ensures ExtractArrayType(s) == GetType(s[..n])
  {
    assert s[..n] + s[|s| - 1 + 1..] == s[..n];
  }

  /** Stripping the last suffix gives the element type. */
  lemma ExtractAgrees(e: Ty, k: nat)
    ensures ExtractArrayType(Print(Array(e, k))) == Describe(e)
  {
    PrintNonEmpty(e);
    SuffixedBy(Print(e), k);
    ExtractOfArray(Print(e) + Suffix(k), |Print(e)|, k);
    GetTypeAgrees(e);
  }

  /** get_type on a printed type. */
  method ReadType(s: string, ghost t: Ty) returns (info: Info)
    requires Spells(s, t)
    ensures Reads(info, t)
  {
    assert s == Print(t);
    GetTypeAgrees(t);
    info := GetType(s);
  }

  /** extract_array_type on a printed array type. */
  method ElementType(info: Info, ghost t: Ty) returns (elem: Info)
    requires Reads(info, t) && t.Array?
    ensures Reads(elem, t.elem)
  {
    assert info == Describe(t);
    ExtractAgrees(t.elem, t.len);
    elem := ExtractArrayType(info.str);
  }
}
