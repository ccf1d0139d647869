/** The streaming loops to_base64 and from_base64 against the 24-bit groups of section 4 of RFC 4648. */
module Base64Stream {
  import opened Words
  import opened Base64

  // ---- the bit layout --------------------------------------------------------------------------

  /** Byte i of the input, zero beyond its end. */
  function ByteAt(b: seq<Byte>, i: nat): Byte {
    if i < |b| then b[i] else 0
  }

  /** The four groups of 6 bits in three bytes x, y, z. */
  function Split0(x: Byte): Sextet { x / 4 }
  function Split1(x: Byte, y: Byte): Sextet { x % 4 * 16 + y / 16 }
  function Split2(y: Byte, z: Byte): Sextet { y % 16 * 4 + z / 64 }
  function Split3(z: Byte): Sextet { z % 64 }

  /** The j-th group of 6 bits. */
  function SextetAt(b: seq<Byte>, j: nat): Sextet {
    var g := j / 4 * 3;
    if j % 4 == 0 then Split0(ByteAt(b, g))
    else if j % 4 == 1 then Split1(ByteAt(b, g), ByteAt(b, g + 1))
    else if j % 4 == 2 then Split2(ByteAt(b, g + 1), ByteAt(b, g + 2))
    else Split3(ByteAt(b, g + 2))
  }

  /** b64len */
  function EncodedLength(n: nat): nat {
    n / 3 * 4 + if n % 3 == 2 then 3 else if n % 3 == 1 then 2 else 0
  }

  function Sextets(b: seq<Byte>): (s: seq<Sextet>)
    ensures |s| == EncodedLength(|b|) && forall j :: 0 <= j < |s| ==> s[j] == SextetAt(b, j)
  {
    seq(EncodedLength(|b|), j requires 0 <= j => SextetAt(b, j))
  }

  function Chars(v: seq<Sextet>): (s: string)
    ensures |s| == |v| && forall j :: 0 <= j < |s| ==> s[j] == Alphabet(v[j])
  {
    seq(|v|, j requires 0 <= j < |v| => Alphabet(v[j]))
  }

  function Encode(b: seq<Byte>): (s: string)
    ensures |s| == EncodedLength(|b|)
  {
    Chars(Sextets(b))
  }

  function DecodedLength(n: nat): nat {
    n * 3 / 4
  }

  /** The three bytes of four sextets p, q, r, s. */
  function Join0(p: Sextet, q: Sextet): Byte { p as int * 4 + q / 16 }
  function Join1(q: Sextet, r: Sextet): Byte { q as int % 16 * 16 + r / 4 }
  function Join2(r: Sextet, s: Sextet): Byte { r as int % 4 * 64 + s }

  /** The i-th byte of a sextet sequence. */
  function DecodedByte(v: seq<Sextet>, i: nat): Byte
    requires i < DecodedLength(|v|)
  {
    var g := i / 3 * 4;
    if i % 3 == 0 then Join0(v[g], v[g + 1])
    else if i % 3 == 1 then Join1(v[g + 1], v[g + 2])
    else Join2(v[g + 2], v[g + 3])
  }

  function DecodedBytes(v: seq<Sextet>): (b: seq<Byte>)
    ensures |b| == DecodedLength(|v|) && forall i :: 0 <= i < |b| ==> b[i] == DecodedByte(v, i)
  {
    seq(DecodedLength(|v|), i requires 0 <= i < DecodedLength(|v|) => DecodedByte(v, i))
  }

  /** Section 3.5: no text of length 1 modulo 4, and unused bits must be zero. */
  predicate Canonical(v: seq<Sextet>) {
    && |v| % 4 != 1
    && (|v| % 4 == 2 ==> Low4(v[|v| - 1]))
    && (|v| % 4 == 3 ==> Low2(v[|v| - 1]))
  }

  lemma SextetOfGroup(b: seq<Byte>, g: nat, k: nat)
    requires k < 4
    ensures SextetAt(b, 4 * g + k) == var x, y, z := ByteAt(b, 3 * g), ByteAt(b, 3 * g + 1), ByteAt(b, 3 * g + 2);
              if k == 0 then Split0(x) else if k == 1 then Split1(x, y) else if k == 2 then Split2(y, z) else Split3(z)
  {
    hide ByteAt, Split0, Split1, Split2, Split3;
    assert (4 * g) / 4 == g && (4 * g + 1) / 4 == g && (4 * g + 2) / 4 == g && (4 * g + 3) / 4 == g;
  }

  /** A byte of a group needs the sextets up to one past its own place. */
  lemma ByteOfGroup(v: seq<Sextet>, g: nat, k: nat)
    requires k < 3 && 3 * g + k < DecodedLength(|v|)
    ensures 4 * g + k + 1 < |v|
    ensures DecodedByte(v, 3 * g + k) == if k == 0 then Join0(v[4 * g], v[4 * g + 1])
                                         else if k == 1 then Join1(v[4 * g + 1], v[4 * g + 2])
                                         else Join2(v[4 * g + 2], v[4 * g + 3])
  {
    hide Join0, Join1, Join2;
    assert (3 * g) / 3 == g && (3 * g + 1) / 3 == g && (3 * g + 2) / 3 == g;
  }

  /** Splitting three bytes into sextets and joining them again. */
  lemma JoinSplit(x: Byte, y: Byte, z: Byte)
    ensures Join0(Split0(x), Split1(x, y)) == x
    ensures Join1(Split1(x, y), Split2(y, z)) == y
    ensures Join2(Split2(y, z), Split3(z)) == z
  {
  }

  lemma SplitJoin(p: Sextet, q: Sextet, r: Sextet, s: Sextet)
    ensures Split0(Join0(p, q)) == p
    ensures Split1(Join0(p, q), Join1(q, r)) == q
    ensures Split2(Join1(q, r), Join2(r, s)) == r
    ensures Split3(Join2(r, s)) == s
  {
  }

  lemma LengthRoundTrip(n: nat)
    ensures DecodedLength(EncodedLength(n)) == n && EncodedLength(n) % 4 != 1
    ensures EncodedLength(n) % 4 == 2 <==> n % 3 == 1
    ensures EncodedLength(n) % 4 == 3 <==> n % 3 == 2
  {
    var g := n / 3;
    assert n == 3 * g || n == 3 * g + 1 || n == 3 * g + 2;
  }

  lemma EncodedThenDecodedLength(b: seq<Byte>)
    ensures DecodedLength(|Sextets(b)|) == |b|
  {
    LengthRoundTrip(|b|);
  }

  lemma DecodeEncodeAt(b: seq<Byte>, g: nat, k: nat)
    requires k < 3 && 3 * g + k < |b|
    ensures 3 * g + k < DecodedLength(|Sextets(b)|) && DecodedByte(Sextets(b), 3 * g + k) == b[3 * g + k]
  {
    hide *;
    EncodedThenDecodedLength(b);
    JoinSplit(ByteAt(b, 3 * g), ByteAt(b, 3 * g + 1), ByteAt(b, 3 * g + 2));
    ByteWithin(b, 3 * g + k);
    if k == 0 {
      ByteOfGroup(Sextets(b), g, 0);
      SextetOfGroup(b, g, 0);
      SextetOfGroup(b, g, 1);
    } else if k == 1 {
      ByteOfGroup(Sextets(b), g, 1);
      SextetOfGroup(b, g, 1);
      SextetOfGroup(b, g, 2);
    } else {
      ByteOfGroup(Sextets(b), g, 2);
      SextetOfGroup(b, g, 2);
      SextetOfGroup(b, g, 3);
    }
  }

  lemma ByteWithin(b: seq<Byte>, i: nat)
    ensures ByteAt(b, i) == if i < |b| then b[i] else 0
  {
  }

  lemma EncodingIsCanonical(b: seq<Byte>)
    ensures Canonical(Sextets(b))
  {
    LengthRoundTrip(|b|);
    TrailingBits(b);
    hide EncodedLength, SextetAt;
  }

  lemma SplitWithZero(x: Byte)
    ensures Low4(Split1(x, 0)) && Low2(Split2(x, 0))
  {
  }

  lemma GroupSextets(n: nat, g: nat)
    requires n / 3 == g
    ensures n % 3 == 1 ==> n == 3 * g + 1 && EncodedLength(n) == 4 * g + 2
    ensures n % 3 == 2 ==> n == 3 * g + 2 && EncodedLength(n) == 4 * g + 3
  {
  }

  /** Bits beyond the input are zero. */
  lemma TrailingBits(b: seq<Byte>)
    ensures |b| % 3 == 1 ==> Low4(Sextets(b)[|Sextets(b)| - 1])
    ensures |b| % 3 == 2 ==> Low2(Sextets(b)[|Sextets(b)| - 1])
  {
    hide *;
    var g, k := |b| / 3, |b| % 3;
    GroupSextets(|b|, g);
    if k != 0 {
      SextetOfGroup(b, g, k);
      ByteWithin(b, 3 * g + k);
      SplitWithZero(ByteAt(b, 3 * g + k - 1));
    }
  }

  lemma SameBytes(v: seq<Sextet>, b: seq<Byte>)
    requires DecodedLength(|v|) == |b|
    requires forall i :: 0 <= i < |b| ==> i < DecodedLength(|v|) && DecodedByte(v, i) == b[i]
    ensures DecodedBytes(v) == b
  {
    hide DecodedByte;
  }

  /** Every byte string is recovered from its text. */
  lemma DecodeEncode(b: seq<Byte>)
    ensures Canonical(Sextets(b)) && DecodedBytes(Sextets(b)) == b
  {
    EncodingIsCanonical(b);
    hide *;
    forall i | 0 <= i < |b|
      ensures i < DecodedLength(|Sextets(b)|) && DecodedByte(Sextets(b), i) == b[i]
    {
      DecodeEncodeAt(b, i / 3, i % 3);
    }
    EncodedThenDecodedLength(b);
    SameBytes(Sextets(b), b);
  }

  function SextetOr0(v: seq<Sextet>, i: nat): Sextet {
    if i < |v| then v[i] else 0
  }

  lemma GroupBytes(n: nat, g: nat)
    ensures 4 * g + 3 < n ==> 3 * g + 2 < DecodedLength(n)
    ensures n == 4 * g + 3 ==> DecodedLength(n) == 3 * g + 2
    ensures n == 4 * g + 2 ==> DecodedLength(n) == 3 * g + 1
  {
  }

  /** Bytes of a complete group. */
  lemma WholeGroup(v: seq<Sextet>, g: nat)
    requires 4 * g + 3 < |v|
    ensures var b := DecodedBytes(v);
            && ByteAt(b, 3 * g) == Join0(v[4 * g], v[4 * g + 1])
            && ByteAt(b, 3 * g + 1) == Join1(v[4 * g + 1], v[4 * g + 2])
            && ByteAt(b, 3 * g + 2) == Join2(v[4 * g + 2], v[4 * g + 3])
  {
    GroupBytes(|v|, g);
    hide *;
    ByteOfGroup(v, g, 0);
    ByteOfGroup(v, g, 1);
    ByteOfGroup(v, g, 2);
    ByteWithin(DecodedBytes(v), 3 * g);
    ByteWithin(DecodedBytes(v), 3 * g + 1);
    ByteWithin(DecodedBytes(v), 3 * g + 2);
  }

  /** The low 4 or 2 bits of a sextet are zero. */
  predicate Low4(q: Sextet) { q % 16 == 0 }
  predicate Low2(q: Sextet) { q % 4 == 0 }

  lemma JoinWithZero(q: Sextet)
    ensures Low4(q) ==> Join1(q, 0) == 0
    ensures Low2(q) ==> Join2(q, 0) == 0
    ensures Join2(0, 0) == 0
  {
  }

  /** Bytes of a last group of three sextets, the third with two zero bits. */
  lemma ThreeSextets(v: seq<Sextet>, g: nat)
    requires 4 * g + 3 == |v| && Low2(v[4 * g + 2])
    ensures var b := DecodedBytes(v);
            && ByteAt(b, 3 * g) == Join0(v[4 * g], v[4 * g + 1])
            && ByteAt(b, 3 * g + 1) == Join1(v[4 * g + 1], v[4 * g + 2])
            && ByteAt(b, 3 * g + 2) == Join2(v[4 * g + 2], 0)
  {
    hide *;
    GroupBytes(|v|, g);
    JoinWithZero(v[4 * g + 2]);
    ByteOfGroup(v, g, 0);
    ByteOfGroup(v, g, 1);
    ByteWithin(DecodedBytes(v), 3 * g);
    ByteWithin(DecodedBytes(v), 3 * g + 1);
    ByteWithin(DecodedBytes(v), 3 * g + 2);
  }

  /** Bytes of a last group of two sextets, the second with four zero bits. */
  lemma TwoSextets(v: seq<Sextet>, g: nat)
    requires 4 * g + 2 == |v| && Low4(v[4 * g + 1])
    ensures var b := DecodedBytes(v);
            && ByteAt(b, 3 * g) == Join0(v[4 * g], v[4 * g + 1])
            && ByteAt(b, 3 * g + 1) == Join1(v[4 * g + 1], 0)
            && ByteAt(b, 3 * g + 2) == Join2(0, 0)
  {
    hide *;
    GroupBytes(|v|, g);
    JoinWithZero(v[4 * g + 1]);
    ByteOfGroup(v, g, 0);
    ByteWithin(DecodedBytes(v), 3 * g);
    ByteWithin(DecodedBytes(v), 3 * g + 1);
    ByteWithin(DecodedBytes(v), 3 * g + 2);
  }

  /** Sextets 4g .. 4g+3 of a canonical text, absent ones read as zero, are those of the decoded bytes. */
  lemma DecodedGroup(v: seq<Sextet>, g: nat)
    requires Canonical(v) && 4 * g < |v|
    ensures var p, q, r, s := v[4 * g], SextetOr0(v, 4 * g + 1), SextetOr0(v, 4 * g + 2), SextetOr0(v, 4 * g + 3);
            var b := DecodedBytes(v);
            && ByteAt(b, 3 * g) == Join0(p, q) && ByteAt(b, 3 * g + 1) == Join1(q, r)
            && ByteAt(b, 3 * g + 2) == Join2(r, s)
  {
    hide Join0, Join1, Join2, ByteAt;
    if 4 * g + 3 < |v| {
      WholeGroup(v, g);
    } else if 4 * g + 2 < |v| {
      ThreeSextets(v, g);
    } else {
      TwoSextets(v, g);
    }
  }

  lemma EncodeDecodeAt(v: seq<Sextet>, g: nat, k: nat)
    requires Canonical(v) && k < 4 && 4 * g + k < |v|
    ensures SextetAt(DecodedBytes(v), 4 * g + k) == v[4 * g + k]
  {
    hide SextetAt, ByteAt, Join0, Join1, Join2, Split0, Split1, Split2, Split3, Canonical, DecodedByte;
    DecodedGroup(v, g);
    SplitJoin(v[4 * g], SextetOr0(v, 4 * g + 1), SextetOr0(v, 4 * g + 2), SextetOr0(v, 4 * g + 3));
    SextetOfGroup(DecodedBytes(v), g, k);
  }

  lemma LengthOfDecoded(n: nat)
    requires n % 4 != 1
    ensures EncodedLength(DecodedLength(n)) == n
  {
    var g := n / 4;
    assert n == 4 * g || n == 4 * g + 2 || n == 4 * g + 3;
  }

  /** Every canonical text is reproduced from the bytes it stands for. */
  lemma EncodeDecode(v: seq<Sextet>)
    requires Canonical(v)
    ensures Sextets(DecodedBytes(v)) == v
  {
    LengthOfDecoded(|v|);
    hide SextetAt, DecodedByte, EncodedLength, Canonical;
    forall j | 0 <= j < |v|
      ensures SextetAt(DecodedBytes(v), j) == v[j]
    {
      EncodeDecodeAt(v, j / 4, j % 4);
    }
  }
}
