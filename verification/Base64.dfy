/** Unpadded Base64 of encoding.c: the branch-free character mapping and the two streaming loops, against
    the bit layout of section 4 of RFC 4648. Text is a C string without its terminating NUL: characters
    1..255, where `char` is signed as on every platform the application is built for. */
module Base64 {
  import opened Words
  import opened Bits

  ghost predicate IsText(s: string) {
    forall i :: 0 <= i < |s| ==> 0 < s[i] as int < 256
  }

  ghost predicate IsAscii(s: string) {
    forall i :: 0 <= i < |s| ==> 0 < s[i] as int < 128
  }

  type Sextet = x: int | 0 <= x < 64

  // ---- characters ------------------------------------------------------------------------------

  /** b64_byte_to_char */
  function ByteToChar(x: U32): nat {
    Or(Or(Or(Or(And(Lt8(x, 26), Wrap32(x + 65)), InRange(x, 26, 52, 71)), InRange(x, 52, 62, -4)),
          And(Eq8(x, 62), 43)),
       And(Eq8(x, 63), 47))
  }

  /** GE(x, lo) & LT(x, hi) & (x + shift) */
  function InRange(x: U32, lo: U32, hi: U32, shift: int): nat {
    And(And(Ge8(x, lo), Lt8(x, hi)), Wrap32(x + shift))
  }

  /** GE(c, lo) & LE(c, hi) & (c + shift) */
  function Within(c: U32, lo: U32, hi: U32, shift: int): nat {
    And(And(Ge8(c, lo), Le8(c, hi)), Wrap32(c + shift))
  }

  /** b64_char_to_byte, on the character converted to unsigned */
  function CharToByte(c: U32): nat {
    Or(RawValue(c), And(Eq8(Wrap32(RawValue(c)), 0), 255 - Eq8(c, 65)))
  }

  function RawValue(c: U32): nat {
    Or(Or(Or(Or(Within(c, 65, 90, -65), Within(c, 97, 122, -71)), Within(c, 48, 57, 4)),
          And(Eq8(c, 43), 62)),
       And(Eq8(c, 47), 63))
  }

  /** A signed char, sign-extended to int and converted to unsigned. */
  function Extend(c: char): U32
    requires c as int < 256
  {
    if c as int < 128 then c as int else 0xFFFF_FF00 + c as int
  }

  /** The 6-bit value of a character, 255 if it is not a Base64 character. */
  function CharValue(c: char): nat
    requires c as int < 256
  {
    CharToByte(Extend(c))
  }

  /** Table 1 of RFC 4648. */
  function Alphabet(x: Sextet): char {
    if x < 26 then (x + 65) as char
    else if x < 52 then (x + 71) as char
    else if x < 62 then (x - 4) as char
    else if x == 62 then '+' else '/'
  }

  /** The low byte of the comparison macros. */
  function Mask(yes: bool): nat {
    if yes then 255 else 0
  }

  function Pick(yes: bool, v: nat): nat {
    if yes then v % 256 else 0
  }

  lemma Masked(yes: bool, v: nat)
    ensures And(Mask(yes), v) == Pick(yes, v)
  {
    assert Pow2(8) == 256;
    AndOnes(8, v);
  }

  lemma Greater(x: U32, y: U32)
    requires x < 256 && y < 256
    ensures Gt8(x, y) == Mask(x > y)
  {
    assert Wrap32(y - x) == if x <= y then y - x else y - x + 0x1_0000_0000;
  }

  lemma Compared(x: U32, y: U32)
    requires x < 256 && y < 256
    ensures Lt8(x, y) == Mask(y > x) && Ge8(x, y) == Mask(y <= x) && Le8(x, y) == Mask(x <= y)
  {
    Greater(y, x);
    Greater(x, y);
    hide Gt8;
  }

  lemma Equals(x: U32, y: U32, v: nat)
    requires x < 256 && y < 256
    ensures And(Eq8(x, y), v) == Pick(x == y, v)
  {
    Eq8Bytes(x, y);
    Masked(x == y, v);
  }

  lemma BothMasks(a: bool, b: bool)
    ensures And(Mask(a), Mask(b)) == Mask(a && b)
  {
    Masked(a, Mask(b));
  }

  lemma InRangeIs(x: U32, lo: U32, hi: U32, shift: int)
    requires x < 256 && lo <= hi < 256
    ensures InRange(x, lo, hi, shift) == Pick(lo <= x < hi, Wrap32(x + shift))
  {
    Compared(x, lo);
    Compared(x, hi);
    BothMasks(lo <= x, x < hi);
    Masked(lo <= x && x < hi, Wrap32(x + shift));
    hide Lt8, Ge8, And, Mask, Wrap32, Pick;
  }

  lemma WithinIs(x: U32, lo: U32, hi: U32, shift: int)
    requires x < 256 && lo <= hi < 256
    ensures Within(x, lo, hi, shift) == Pick(lo <= x <= hi, Wrap32(x + shift))
  {
    Compared(x, lo);
    Compared(x, hi);
    BothMasks(lo <= x, x <= hi);
    Masked(lo <= x && x <= hi, Wrap32(x + shift));
    hide Le8, Ge8, And, Mask, Wrap32, Pick;
  }

  lemma OrOne(a: nat, b: nat)
    requires a == 0 || b == 0
    ensures Or(a, b) == a + b
  {
  }

  lemma OneOfFive(x: Sextet)
    ensures Pick(x < 26, Wrap32(x + 65)) + Pick(26 <= x < 52, Wrap32(x + 71)) + Pick(52 <= x < 62, Wrap32(x - 4))
          + Pick(x == 62, 43) + Pick(x == 63, 47) == Alphabet(x) as int
  {
  }

  lemma OneOfFiveValues(c: U32)
    requires c < 128
    ensures Pick(65 <= c <= 90, Wrap32(c - 65)) + Pick(97 <= c <= 122, Wrap32(c - 71))
      + Pick(48 <= c <= 57, Wrap32(c + 4))
          + Pick(c == 43, 62) + Pick(c == 47, 63) == if AsciiValue(c) == 255 then 0 else AsciiValue(c)
  {
  }

  lemma OrFive(a: nat, b: nat, c: nat, d: nat, e: nat)
    requires (a == 0 && b == 0 && c == 0 && d == 0) || (a == 0 && b == 0 && c == 0 && e == 0)
          || (a == 0 && b == 0 && d == 0 && e == 0) || (a == 0 && c == 0 && d == 0 && e == 0)
          || (b == 0 && c == 0 && d == 0 && e == 0)
    ensures Or(Or(Or(Or(a, b), c), d), e) == a + b + c + d + e
  {
    OrOne(a, b);
    OrOne(a + b, c);
    OrOne(a + b + c, d);
    OrOne(a + b + c + d, e);
  }

  /** The branch-free encoder of a character is Table 1. */
  lemma ByteToCharIsAlphabet(x: Sextet)
    ensures ByteToChar(x) == Alphabet(x) as int
  {
    Compared(x, 26);
    Masked(x < 26, Wrap32(x + 65));
    InRangeIs(x, 26, 52, 71);
    InRangeIs(x, 52, 62, -4);
    Equals(x, 62, 43);
    Equals(x, 63, 47);
    hide Lt8, Eq8, InRange, And, Or;
    OrFive(Pick(x < 26, Wrap32(x + 65)), Pick(26 <= x < 52, Wrap32(x + 71)), Pick(52 <= x < 62, Wrap32(x - 4)),
           Pick(x == 62, 43), Pick(x == 63, 47));
    OneOfFive(x);
    hide Pick, Wrap32, Alphabet;
  }

  /** Value of an ASCII character: the inverse of the alphabet, 255 elsewhere. */
  function AsciiValue(c: nat): nat {
    if 65 <= c <= 90 then c - 65
    else if 97 <= c <= 122 then c - 71
    else if 48 <= c <= 57 then c + 4
    else if c == 43 then 62
    else if c == 47 then 63
    else 255
  }

  /** On ASCII characters the branch-free decoder inverts Table 1 and answers 255 elsewhere. */
  lemma CharToByteAscii(c: U32)
    requires c < 128
    ensures CharToByte(c) == AsciiValue(c)
  {
    RawValueAscii(c);
    FinishValue(c, RawValue(c));
    hide RawValue, And, Or, Eq8, Wrap32;
  }

  lemma RawValueAscii(c: U32)
    requires c < 128
    ensures RawValue(c) == if AsciiValue(c) == 255 then 0 else AsciiValue(c)
  {
    WithinIs(c, 65, 90, -65);
    WithinIs(c, 97, 122, -71);
    WithinIs(c, 48, 57, 4);
    Equals(c, 43, 62);
    Equals(c, 47, 63);
    hide Within, Eq8, And, Or;
    OrFive(Pick(65 <= c <= 90, Wrap32(c - 65)), Pick(97 <= c <= 122, Wrap32(c - 71)),
           Pick(48 <= c <= 57, Wrap32(c + 4)), Pick(c == 43, 62), Pick(c == 47, 63));
    OneOfFiveValues(c);
    hide Pick, Wrap32;
  }

  /** The last step turns 0 into 255 unless the character is 'A'. */
  lemma FinishValue(c: U32, x: nat)
    requires c < 128 && x < 64
    ensures Or(x, And(Eq8(Wrap32(x), 0), 255 - Eq8(c, 65))) == if x == 0 && c != 65 then 255 else x
  {
    Eq8Bytes(c, 65);
    hide Eq8, And, Or;
    assert Wrap32(x) == x;
    Equals(x, 0, 255 - Eq8(c, 65));
    OrOne(x, And(Eq8(x, 0), 255 - Eq8(c, 65)));
  }

  lemma NegativeIsAbove(c: U32, lo: U32)
    requires 0xFFFF_FF80 <= c && lo < 128
    ensures Ge8(c, lo) == Mask(false)
  {
    assert Wrap32(c - lo) == c - lo;
    assert (c - lo) / 256 == 0xFF_FFFF;
  }

  lemma WithinNegative(c: U32, lo: U32, hi: U32, shift: int)
    requires 0xFFFF_FF80 <= c && 48 <= lo <= hi < 123
    ensures Within(c, lo, hi, shift) == 0
  {
    hide Ge8, Le8, And, Wrap32;
    NegativeIsAbove(c, lo);
    Masked(false, Le8(c, hi));
    Masked(false, Wrap32(c + shift));
  }

  /** A character above 127 is negative, compares equal to both '+' and '/', and decodes as 63. */
  lemma CharToByteNegative(c: U32)
    requires 0xFFFF_FF80 <= c
    ensures CharToByte(c) == 63
  {
    WithinNegative(c, 65, 90, -65);
    WithinNegative(c, 97, 122, -71);
    WithinNegative(c, 48, 57, 4);
    Eq8Negative(c, 43);
    Eq8Negative(c, 47);
    Masked(true, 62);
    Masked(true, 63);
    Equals(63, 0, 255 - Eq8(c, 65));
    assert Or(62, 63) == 63 && Or(0, 0) == 0 && Or(0, 62) == 62 && Or(63, 0) == 63;
    hide Within, Eq8, And, Or;
  }

  /** Every character's value: Table 1 for ASCII, and 63 for all others. */
  lemma CharValueIs(c: char)
    requires c as int < 256
    ensures CharValue(c) == if c as int < 128 then AsciiValue(c as int) else 63
  {
    if c as int < 128 {
      CharToByteAscii(c as int);
    } else {
      CharToByteNegative(Extend(c));
    }
  }

  lemma AlphabetInverse(x: Sextet)
    ensures Alphabet(x) as int < 128 && CharValue(Alphabet(x)) == x
  {
    CharValueIs(Alphabet(x));
  }
}
