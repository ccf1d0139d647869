/** The hash string letter by letter and bit by bit: the type's name, the digits, the table of characters, and which
    bits of which byte each character shows. */
module HashSpelling {
  import opened Words
  import opened Bits
  import opened Base64
  import opened Base64Stream
  import opened Decimal
  import opened HashString
  import opened Argon2Context

  /** The printed form, spelled out. */
  lemma TextSpelled(f: Fields, kind: Kind)
    ensures Text(f, kind) ==
            "$" + (if kind.Argon2id? then "argon2id" else if kind.Argon2i? then "argon2i" else "argon2d")
            + "$v=" + Digits(f.version) + "$m=" + Digits(f.mCost) + ",t=" + Digits(f.tCost) + ",p=" + Digits(f.lanes)
            + "$" + Encode(f.salt) + "$" + Encode(f.out)
  {
    hide Digits, Encode;
  }

  // ---- digits ----------------------------------------------------------------------------------

  /** The ten digits, and a number from most to least significant. */
  lemma DigitsSpelled(d: nat, n: nat)
    requires d < 10
    ensures Digits(d) == ["0123456789"[d]]
    ensures Digits(10 * n + d) == if n == 0 then Digits(d) else Digits(n) + Digits(d)
  {
    DigitSpelled(d);
    hide DigitChar;
    assert (10 * n + d) / 10 == n && (10 * n + d) % 10 == d;
  }

  lemma DigitSpelled(d: nat)
    requires d < 10
    ensures DigitChar(d) == "0123456789"[d]
  {
  }

  // ---- the table of characters -----------------------------------------------------------------

  /** Table 1 of RFC 4648: capitals, small letters, digits, plus and slash. */
  lemma AlphabetSpelled(x: Sextet)
    ensures x < 26 ==> 'A' <= Alphabet(x) <= 'Z' && (Alphabet(x) - 'A') as int == x
    ensures 26 <= x < 52 ==> 'a' <= Alphabet(x) <= 'z' && (Alphabet(x) - 'a') as int == x - 26
    ensures 52 <= x < 62 ==> '0' <= Alphabet(x) <= '9' && (Alphabet(x) - '0') as int == x - 52
    ensures Alphabet(62) == '+' && Alphabet(63) == '/'
  {
  }

  // ---- bits ------------------------------------------------------------------------------------

  /** Bit k of a byte, and of a sextet, from the most significant on. */
  function ByteBit(x: Byte, k: nat): nat
    requires k < 8
  {
    x / [128, 64, 32, 16, 8, 4, 2, 1][k] % 2
  }

  function SextetBit(x: Sextet, k: nat): nat
    requires k < 6
  {
    x / [32, 16, 8, 4, 2, 1][k] % 2
  }

  /** The length is that of the bits in sixes, rounded up. */
  lemma EncodedLengthSpelled(n: nat)
    ensures EncodedLength(n) == (8 * n + 5) / 6
  {
    var q, r := n / 3, n % 3;
    assert n == 3 * q + r;
  }

  /** A sextet made of six bits shows them. */
  lemma SixBits(a: nat, b: nat, c: nat, d: nat, e: nat, f: nat, k: nat)
    requires a < 2 && b < 2 && c < 2 && d < 2 && e < 2 && f < 2 && k < 6
    ensures var x := 32 * a + 16 * b + 8 * c + 4 * d + 2 * e + f; x < 64 && SextetBit(x, k) == [a, b, c, d, e, f][k]
  {
  }

  lemma Halves(x: Byte)
    ensures x == 2 * (x / 2) + ByteBit(x, 7) && x / 2 == 2 * (x / 4) + ByteBit(x, 6)
    ensures x / 4 == 2 * (x / 8) + ByteBit(x, 5) && x / 8 == 2 * (x / 16) + ByteBit(x, 4)
  {
  }

  lemma MoreHalves(x: Byte)
    ensures x / 16 == 2 * (x / 32) + ByteBit(x, 3) && x / 32 == 2 * (x / 64) + ByteBit(x, 2)
    ensures x / 64 == 2 * (x / 128) + ByteBit(x, 1) && x / 128 == ByteBit(x, 0)
  {
  }

  /** The parts of a byte that go to one sextet and to the next. */
  lemma HighPart(x: Byte)
    ensures x / 4 == 32 * ByteBit(x, 0) + 16 * ByteBit(x, 1) + 8 * ByteBit(x, 2) + 4 * ByteBit(x, 3)
                     + 2 * ByteBit(x, 4) + ByteBit(x, 5)
    ensures x / 16 == 8 * ByteBit(x, 0) + 4 * ByteBit(x, 1) + 2 * ByteBit(x, 2) + ByteBit(x, 3)
    ensures x / 64 == 2 * ByteBit(x, 0) + ByteBit(x, 1)
  {
    Halves(x);
    MoreHalves(x);
    hide ByteBit;
  }

  lemma LowPart(x: Byte)
    ensures x % 4 == 2 * ByteBit(x, 6) + ByteBit(x, 7)
    ensures x % 16 == 8 * ByteBit(x, 4) + 4 * ByteBit(x, 5) + 2 * ByteBit(x, 6) + ByteBit(x, 7)
    ensures x % 64 == 32 * ByteBit(x, 2) + 16 * ByteBit(x, 3) + 8 * ByteBit(x, 4) + 4 * ByteBit(x, 5)
                      + 2 * ByteBit(x, 6) + ByteBit(x, 7)
  {
    Halves(x);
    MoreHalves(x);
    hide ByteBit;
  }

  lemma BitIsBit(x: Byte, k: nat)
    requires k < 8
    ensures ByteBit(x, k) < 2
  {
  }

  lemma FirstBits(x: Byte, y: Byte, k: nat)
    requires k < 6
    ensures SextetBit(Split0(x), k) == ByteBit(x, k)
    ensures SextetBit(Split1(x, y), k) == if k < 2 then ByteBit(x, k + 6) else ByteBit(y, k - 2)
  {
    HighPart(x);
    LowPart(x);
    HighPart(y);
    hide ByteBit, SextetBit;
    forall i | 0 <= i < 8
      ensures ByteBit(x, i) < 2 && ByteBit(y, i) < 2
    {
      BitIsBit(x, i);
      BitIsBit(y, i);
    }
    SixBits(ByteBit(x, 0), ByteBit(x, 1), ByteBit(x, 2), ByteBit(x, 3), ByteBit(x, 4), ByteBit(x, 5), k);
    SixBits(ByteBit(x, 6), ByteBit(x, 7), ByteBit(y, 0), ByteBit(y, 1), ByteBit(y, 2), ByteBit(y, 3), k);
  }

  lemma LastBits(y: Byte, z: Byte, k: nat)
    requires k < 6
    ensures SextetBit(Split2(y, z), k) == if k < 4 then ByteBit(y, k + 4) else ByteBit(z, k - 4)
    ensures SextetBit(Split3(z), k) == ByteBit(z, k + 2)
  {
    LowPart(y);
    HighPart(z);
    LowPart(z);
    hide ByteBit, SextetBit;
    forall i | 0 <= i < 8
      ensures ByteBit(y, i) < 2 && ByteBit(z, i) < 2
    {
      BitIsBit(y, i);
      BitIsBit(z, i);
    }
    SixBits(ByteBit(y, 4), ByteBit(y, 5), ByteBit(y, 6), ByteBit(y, 7), ByteBit(z, 0), ByteBit(z, 1), k);
    SixBits(ByteBit(z, 2), ByteBit(z, 3), ByteBit(z, 4), ByteBit(z, 5), ByteBit(z, 6), ByteBit(z, 7), k);
  }

  lemma GroupBits(x: Byte, y: Byte, z: Byte, r: nat)
    requires r < 24
    ensures SextetBit([Split0(x), Split1(x, y), Split2(y, z), Split3(z)][r / 6], r % 6)
      == ByteBit([x, y, z][r / 8], r % 8)
  {
    FirstBits(x, y, r % 6);
    LastBits(y, z, r % 6);
    hide SextetBit, ByteBit, Split0, Split1, Split2, Split3;
  }

  lemma PlaceBits(b: seq<Byte>, g: nat, r: nat)
    requires r < 24
    ensures SextetBit(SextetAt(b, 4 * g + r / 6), r % 6) == ByteBit(ByteAt(b, 3 * g + r / 8), r % 8)
  {
    SextetOfGroup(b, g, r / 6);
    GroupBits(ByteAt(b, 3 * g), ByteAt(b, 3 * g + 1), ByteAt(b, 3 * g + 2), r);
    hide Split0, Split1, Split2, Split3, SextetAt, SextetBit, ByteBit, ByteAt;
  }

  lemma Places(k: nat)
    ensures k / 6 == 4 * (k / 24) + k % 24 / 6 && k % 6 == k % 24 % 6
    ensures k / 8 == 3 * (k / 24) + k % 24 / 8 && k % 8 == k % 24 % 8
  {
  }

  lemma ZeroBit(k: nat)
    requires k < 8
    ensures ByteBit(0, k) == 0
  {
  }

  /** The characters show the bits of the bytes in their order, and then zeros. */
  lemma BitsSpelled(b: seq<Byte>, k: nat)
    requires k < 6 * EncodedLength(|b|)
    ensures 0 <= k / 6 < |Encode(b)| && k / 6 < |Sextets(b)|
    ensures Encode(b)[k / 6] == Alphabet(Sextets(b)[k / 6])
    ensures SextetBit(Sextets(b)[k / 6], k % 6) == if k < 8 * |b| then ByteBit(b[k / 8], k % 8) else 0
  {
    hide SextetAt, SextetBit, ByteBit, EncodedLength, Alphabet;
    Places(k);
    PlaceBits(b, k / 24, k % 24);
    ZeroBit(k % 8);
    assert k < 8 * |b| <==> k / 8 < |b|;
  }

  // ---- the operators of C ----------------------------------------------------------------------

  /** Bit k of a number, from the least significant on. */
  function BitAt(x: nat, k: nat): nat {
    if k == 0 then x % 2 else BitAt(x / 2, k - 1)
  }

  lemma {:induction false} ZeroHasNoBits(k: nat)
    ensures BitAt(0, k) == 0
  {
    if k > 0 {
      ZeroHasNoBits(k - 1);
    }
  }

  lemma {:induction false} AndSpelled(a: nat, b: nat, k: nat)
    ensures BitAt(And(a, b), k) == if BitAt(a, k) == 1 && BitAt(b, k) == 1 then 1 else 0
  {
    if a == 0 || b == 0 {
      ZeroHasNoBits(k);
    } else if k > 0 {
      assert And(a, b) / 2 == And(a / 2, b / 2);
      AndSpelled(a / 2, b / 2, k - 1);
    }
  }

  lemma {:induction false} OrSpelled(a: nat, b: nat, k: nat)
    ensures BitAt(Or(a, b), k) == if BitAt(a, k) == 1 || BitAt(b, k) == 1 then 1 else 0
    decreases k
  {
    BitsAreBits(a, k);
    BitsAreBits(b, k);
    if a == 0 || b == 0 {
      ZeroHasNoBits(k);
    } else if k > 0 {
      assert Or(a, b) / 2 == Or(a / 2, b / 2);
      OrSpelled(a / 2, b / 2, k - 1);
    }
  }

  lemma {:induction false} XorSpelled(a: nat, b: nat, k: nat)
    ensures BitAt(Xor(a, b), k) == if BitAt(a, k) != BitAt(b, k) then 1 else 0
    decreases k
  {
    BitsAreBits(a, k);
    BitsAreBits(b, k);
    if a == 0 || b == 0 {
      ZeroHasNoBits(k);
    } else if k > 0 {
      assert Xor(a, b) / 2 == Xor(a / 2, b / 2);
      XorSpelled(a / 2, b / 2, k - 1);
    }
  }

  lemma {:induction false} BitsAreBits(x: nat, k: nat)
    ensures BitAt(x, k) < 2
  {
    if k > 0 {
      BitsAreBits(x / 2, k - 1);
    }
  }

  // ---- what decode_string answers --------------------------------------------------------------

  /** The whole text must parse but for what follows the output; then the parameters are checked, and only then what
      follows. */
  lemma DecodeTells(s: string, kind: Kind, pwd: Buffer, saltCap: nat, outCap: nat, ulongMax: nat)
    requires IsText(s)
    ensures var d, parsed := Decode(s, kind, pwd, saltCap, outCap, ulongMax), Parse(s, kind, saltCap, outCap, ulongMax);
            if parsed.None? then d == Rejected(DecodingFail)
            else
              var f := parsed.value.0;
              var ctx := Context(Data(f.out), pwd, Data(f.salt), Null(0), Null(0), f.tCost, f.mCost, f.lanes, f.lanes,
                                 f.version, false, false);
              var code := ValidateInputs(ctx);
              && (d.Accepted? <==> code.OK? && parsed.value.1 == "") && (d.Accepted? ==> d.ctx == ctx)
              && (d.Rejected? ==> d.code == if code.OK? then DecodingFail else code)
  {
    hide Parse, ValidateInputs;
  }
}
