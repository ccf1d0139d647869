/** to_base64 and from_base64: streaming loops over a wrapping 32-bit accumulator, proved against the bit
    layout of Base64Stream. */
module Base64Loops {
  import opened Arithmetic
  import opened Wrappers
  import opened Words
  import opened Bits
  import opened Base64
  import opened Base64Stream

  // ---- encoding --------------------------------------------------------------------------------

  /** The byte d places before position k, zero before the start. */
  function Before(b: seq<Byte>, k: nat, d: nat): Byte
    requires k <= |b| && d > 0
  {
    if d <= k then b[k - d] else 0
  }

  /** However often the accumulator has wrapped, its low half still holds the last two bytes read. */
  ghost predicate HoldsBytes(acc: U32, b: seq<Byte>, k: nat)
    requires k <= |b|
  {
    acc % 0x1_0000 == Before(b, k, 2) * 0x100 + Before(b, k, 1)
  }

  lemma Push8(acc: U32, x: Byte)
    ensures Wrap32(Shl(acc, 8) + x) % 0x1_0000 == acc % 0x100 * 0x100 + x
  {
    assert Pow2(8) == 0x100;
    ShlIsProduct(acc, 8);
    hide Shl, Pow2;
    ShiftedByte(acc);
    var low := acc % 0x100_0000;
    Divide(low * 0x100 + x, 0x1_0000, low / 0x100, low % 0x100 * 0x100 + x);
    RemainderOfRemainder(acc);
  }

  lemma ShiftedByte(acc: U32)
    ensures Wrap32(0x100 * acc) == acc % 0x100_0000 * 0x100
  {
    Divide(0x100 * acc, 0x1_0000_0000, acc / 0x100_0000, acc % 0x100_0000 * 0x100);
  }

  lemma RemainderOfRemainder(acc: U32)
    ensures acc % 0x100_0000 % 0x100 == acc % 0x100
  {
  }

  lemma PushByte(acc: U32, b: seq<Byte>, k: nat)
    requires k < |b| && HoldsBytes(acc, b, k)
    ensures HoldsBytes(Wrap32(Shl(acc, 8) + b[k]), b, k + 1)
  {
    Push8(acc, b[k]);
    hide Shl, Wrap32;
    LowByte(acc, Before(b, k, 2), Before(b, k, 1));
  }

  lemma LowByte(acc: U32, x: Byte, y: Byte)
    requires acc % 0x1_0000 == x * 0x100 + y
    ensures acc % 0x100 == y
  {
  }

  function Six(acc: U32, n: nat): nat {
    And(Shr(acc, n), 0x3F)
  }

  lemma ShrBy(acc: nat)
    ensures Shr(acc, 0) == acc && Shr(acc, 2) == acc / 4 && Shr(acc, 4) == acc / 16 && Shr(acc, 6) == acc / 64
  {
    assert Shr(acc, 1) == Shr(acc, 0) / 2 == acc / 2;
    assert Shr(acc, 2) == Shr(acc, 1) / 2 == acc / 4;
    assert Shr(acc, 3) == Shr(acc, 2) / 2 == acc / 8;
    assert Shr(acc, 4) == Shr(acc, 3) / 2 == acc / 16;
    assert Shr(acc, 5) == Shr(acc, 4) / 2 == acc / 32;
    assert Shr(acc, 6) == Shr(acc, 5) / 2 == acc / 64;
  }

  lemma SixIs(acc: U32)
    ensures Six(acc, 0) == acc % 64 && Six(acc, 2) == acc / 4 % 64
    ensures Six(acc, 4) == acc / 16 % 64 && Six(acc, 6) == acc / 64 % 64
  {
    ShrBy(acc);
    assert Pow2(6) == 64;
    AndLow(6, acc);
    AndLow(6, acc / 4);
    AndLow(6, acc / 16);
    AndLow(6, acc / 64);
    hide And, Shr;
  }

  lemma SixOfBytes(acc: U32, x: Byte, y: Byte)
    requires acc % 0x1_0000 == x * 0x100 + y
    ensures Six(acc, 2) == Split0(y) && Six(acc, 4) == Split1(x, y)
    ensures Six(acc, 6) == Split2(x, y) && Six(acc, 0) == Split3(y)
  {
    SixIs(acc);
    hide Six;
    SixParts(acc, x, y);
  }

  lemma SixParts(acc: U32, x: Byte, y: Byte)
    requires acc % 0x1_0000 == x * 0x100 + y
    ensures acc / 4 % 64 == y / 4
    ensures acc / 16 % 64 == x % 4 * 16 + y / 16
    ensures acc / 64 % 64 == x % 16 * 4 + y / 64
    ensures acc % 64 == y % 64
  {
    var h := acc / 0x1_0000;
    Quarter(acc, h, x, y);
    Sixteenth(acc, h, x, y);
    SixtyFourth(acc, h, x, y);
  }

  lemma Quarter(acc: U32, h: nat, x: Byte, y: Byte)
    requires acc == h * 0x1_0000 + x * 0x100 + y
    ensures acc / 4 % 64 == y / 4
  {
    Divide(acc, 4, 64 * (h * 256 + x) + y / 4, y % 4);
    Divide(64 * (h * 256 + x) + y / 4, 64, h * 256 + x, y / 4);
  }

  lemma Sixteenth(acc: U32, h: nat, x: Byte, y: Byte)
    requires acc == h * 0x1_0000 + x * 0x100 + y
    ensures acc / 16 % 64 == x % 4 * 16 + y / 16
  {
    Divide(acc, 16, h * 4096 + x * 16 + y / 16, y % 16);
    Divide(h * 4096 + x * 16 + y / 16, 64, h * 64 + x / 4, x % 4 * 16 + y / 16);
  }

  lemma SixtyFourth(acc: U32, h: nat, x: Byte, y: Byte)
    requires acc == h * 0x1_0000 + x * 0x100 + y
    ensures acc / 64 % 64 == x % 16 * 4 + y / 64 && acc % 64 == y % 64
  {
    Divide(acc, 64, h * 1024 + x * 4 + y / 64, y % 64);
    Divide(h * 1024 + x * 4 + y / 64, 64, h * 16 + x / 16, x % 16 * 4 + y / 64);
  }

  /** The loop's progress: 8 bits read per byte, 6 bits written per character, the rest pending. */
  lemma NextSextet(acc: U32, accLen: nat, b: seq<Byte>, k: nat, w: nat)
    requires 1 <= k <= |b| && HoldsBytes(acc, b, k)
    requires 8 * k == 6 * w + accLen && 6 <= accLen < 14
    ensures Six(acc, accLen - 6) == SextetAt(b, w)
  {
    SixOfBytes(acc, Before(b, k, 2), Before(b, k, 1));
    WherePending(k, w, accLen);
    hide *;
    var g, j := w / 4, w % 4;
    SextetOfGroup(b, g, j);
    BeforeIs(b, k, 1);
    BeforeIs(b, k, 2);
    ByteWithin(b, 3 * g);
    ByteWithin(b, 3 * g + 1);
    ByteWithin(b, 3 * g + 2);
  }

  lemma BeforeIs(b: seq<Byte>, k: nat, d: nat)
    requires d > 0 && k <= |b|
    ensures Before(b, k, d) == if d <= k then b[k - d] else 0
  {
  }

  lemma WherePending(k: nat, w: nat, accLen: nat)
    requires 8 * k == 6 * w + accLen && 6 <= accLen < 14
    ensures w == 4 * (w / 4) + w % 4
    ensures w % 4 == 0 ==> accLen == 8 && k == 3 * (w / 4) + 1
    ensures w % 4 == 1 ==> accLen == 10 && k == 3 * (w / 4) + 2
    ensures w % 4 == 2 ==> accLen == 12 && k == 3 * (w / 4) + 3
    ensures w % 4 == 3 ==> accLen == 6 && k == 3 * (w / 4) + 3
  {
  }

  function LastSix(acc: U32, accLen: nat): nat
    requires accLen <= 6
  {
    And(Shl(acc, 6 - accLen), 0x3F)
  }

  lemma LastSixIs(acc: U32, y: Byte)
    requires acc % 0x100 == y
    ensures LastSix(acc, 2) == Split1(y, 0) && LastSix(acc, 4) == Split2(y, 0)
  {
    assert Pow2(2) == 4 && Pow2(4) == 16 && Pow2(6) == 64;
    ShlIsProduct(acc, 2);
    ShlIsProduct(acc, 4);
    AndLow(6, Shl(acc, 2));
    AndLow(6, Shl(acc, 4));
    hide And, Shl, Pow2;
    ShiftedLow(acc, y);
  }

  lemma ShiftedLow(acc: U32, y: Byte)
    requires acc % 0x100 == y
    ensures Wrap32(4 * acc) % 64 == y % 16 * 4
    ensures Wrap32(16 * acc) % 64 == y % 4 * 16
  {
    var h := acc / 0x100;
    WrapKeepsLow(4 * acc, 16 * h + y / 16, y % 16 * 4);
    WrapKeepsLow(16 * acc, 64 * h + y / 4, y % 4 * 16);
  }

  lemma WrapKeepsLow(x: nat, q: nat, r: nat)
    requires r < 64 && x == 64 * q + r
    ensures Wrap32(x) % 64 == r
  {
    var t := x / 0x1_0000_0000;
    Divide(Wrap32(x), 64, q - t * 0x400_0000, r);
  }

  lemma WhereLast(k: nat, w: nat, accLen: nat)
    requires 8 * k == 6 * w + accLen && accLen < 6
    ensures EncodedLength(k) == w + if accLen > 0 then 1 else 0
    ensures || accLen == 0
            || (accLen == 2 && w % 4 == 1 && k == 3 * (w / 4) + 1)
            || (accLen == 4 && w % 4 == 2 && k == 3 * (w / 4) + 2)
  {
    hide EncodedLength;
    EvenPending(k, w, accLen);
    if accLen == 0 {
      EncodedLengthOf(w / 4, 0);
    } else {
      EncodedLengthOf(w / 4, accLen / 2);
    }
  }

  lemma EvenPending(k: nat, w: nat, accLen: nat)
    requires 8 * k == 6 * w + accLen && accLen < 6
    ensures accLen == 0 ==> k == 3 * (w / 4) && w == 4 * (w / 4)
    ensures || accLen == 0
            || (accLen == 2 && w % 4 == 1 && k == 3 * (w / 4) + 1)
            || (accLen == 4 && w % 4 == 2 && k == 3 * (w / 4) + 2)
  {
  }

  lemma EncodedLengthOf(g: nat, j: nat)
    requires j < 3
    ensures EncodedLength(3 * g + j) == 4 * g + if j == 0 then 0 else j + 1
  {
    assert (3 * g + j) / 3 == g;
  }

  lemma LastSextet(acc: U32, accLen: nat, b: seq<Byte>, w: nat)
    requires HoldsBytes(acc, b, |b|)
    requires 8 * |b| == 6 * w + accLen && 0 < accLen < 6
    ensures LastSix(acc, accLen) == SextetAt(b, w)
  {
    LowByte(acc, Before(b, |b|, 2), Before(b, |b|, 1));
    LastSixIs(acc, Before(b, |b|, 1));
    WhereLast(|b|, w, accLen);
    hide *;
    var g, j := w / 4, w % 4;
    assert w == 4 * g + j;
    SextetOfGroup(b, g, j);
    BeforeIs(b, |b|, 1);
    ByteWithin(b, 3 * g);
    ByteWithin(b, 3 * g + 1);
    ByteWithin(b, 3 * g + 2);
  }

  lemma SextetsFit(k: nat, n: nat, w: nat, accLen: nat)
    requires 8 * k == 6 * w + accLen && k <= n && accLen >= 6
    ensures w < EncodedLength(n)
  {
  }

  /** The characters written so far, and nothing else changed. */
  ghost predicate Written(before: seq<char>, after: seq<char>, pos: nat, text: string, w: nat)
    requires w <= |text| && pos + |text| <= |before| == |after|
  {
    forall i :: 0 <= i < |after| ==> after[i] == if pos <= i < pos + w then text[i - pos] else before[i]
  }

  /** b64len, and the first lines of to_base64. */
  method B64Len(len: nat) returns (olen: nat)
    ensures olen == EncodedLength(len)
  {
    olen := len / 3 * 4;
    if len % 3 == 2 {
      olen := olen + 1;
    }
    if len % 3 != 0 {
      olen := olen + 2;
    }
  }

  /** to_base64: refused exactly when the text and its terminating zero do not fit into dst_len characters;
      otherwise exactly the encoding and the zero are written. */
  method ToBase64(dst: array<char>, pos: nat, dstLen: nat, src: seq<Byte>) returns (olen: Option<nat>)
    requires pos + dstLen <= dst.Length
    modifies dst
    ensures olen == if dstLen <= EncodedLength(|src|) then None else Some(EncodedLength(|src|))
    ensures olen.None? ==> dst[..] == old(dst[..])
    ensures olen.Some? ==> dst[..] == old(dst[..pos]) + Encode(src) + ['\0'] + old(dst[pos + olen.value + 1..])
  {
    hide *;
    var n := B64Len(|src|);
    if dstLen <= n {
      return None;
    }
    ghost var text, before := Encode(src), dst[..];
    var acc: U32, accLen := 0, 0;
    var k, w := 0, 0;
    Start(src, before, pos, text);
    while k < |src|
      invariant 0 <= k <= |src| && 0 <= w <= n
      invariant 8 * k == 6 * w + accLen && 0 <= accLen < 6
      invariant HoldsBytes(acc, src, k)
      invariant Written(before, dst[..], pos, text, w)
    {
      PushByte(acc, src, k);
      acc := Wrap32(Shl(acc, 8) + src[k]);
      k := k + 1;
      accLen := accLen + 8;
      while accLen >= 6
        invariant 0 <= w <= n
        invariant 8 * k == 6 * w + accLen && 0 <= accLen < 14
        invariant HoldsBytes(acc, src, k)
        invariant Written(before, dst[..], pos, text, w)
      {
        SextetsFit(k, |src|, w, accLen);
        NextSextet(acc, accLen, src, k, w);
        CharOf(src, w, Six(acc, accLen - 6));
        accLen := accLen - 6;
        WriteChar(before, dst[..], pos, text, w);
        dst[pos + w] := ByteToChar(Six(acc, accLen)) as char;
        w := w + 1;
      }
    }
    WhereLast(|src|, w, accLen);
    if accLen > 0 {
      LastSextet(acc, accLen, src, w);
      CharOf(src, w, LastSix(acc, accLen));
      WriteChar(before, dst[..], pos, text, w);
      dst[pos + w] := ByteToChar(LastSix(acc, accLen)) as char;
      w := w + 1;
    }
    ghost var done := dst[..];
    dst[pos + w] := '\0';
    WholeText(before, done, dst[..], pos, text);
    return Some(n);
  }

  lemma Start(src: seq<Byte>, before: seq<char>, pos: nat, text: string)
    requires pos + |text| <= |before|
    ensures HoldsBytes(0, src, 0) && Written(before, before, pos, text, 0)
  {
  }

  lemma CharOf(b: seq<Byte>, w: nat, v: nat)
    requires w < EncodedLength(|b|) && v == SextetAt(b, w)
    ensures v < 64 && ByteToChar(v) < 128 && ByteToChar(v) as char == Encode(b)[w]
  {
    hide ByteToChar, SextetAt, EncodedLength;
    ByteToCharIsAlphabet(v);
    AlphabetInverse(v);
  }

  lemma WriteChar(before: seq<char>, now: seq<char>, pos: nat, text: string, w: nat)
    requires w < |text| && pos + |text| <= |before| == |now|
    requires Written(before, now, pos, text, w)
    ensures Written(before, now[pos + w := text[w]], pos, text, w + 1)
  {
  }

  lemma WholeText(before: seq<char>, done: seq<char>, now: seq<char>, pos: nat, text: string)
    requires pos + |text| < |before| == |done| == |now|
    requires Written(before, done, pos, text, |text|)
    requires now == done[pos + |text| := '\0']
    ensures now == before[..pos] + text + ['\0'] + before[pos + |text| + 1..]
  {
  }

  // ---- decoding --------------------------------------------------------------------------------

  predicate IsDigit64(c: char)
    requires c as int < 256
  {
    CharValue(c) != 255
  }

  function SextetOf(c: char): Sextet
    requires c as int < 256 && IsDigit64(c)
  {
    CharValueIs(c);
    CharValue(c)
  }

  /** Length of the longest prefix of Base64 characters. */
  function RunLength(s: string): (n: nat)
    requires IsText(s)
    ensures n <= |s| && (n < |s| ==> !IsDigit64(s[n])) && forall i :: 0 <= i < n ==> IsDigit64(s[i])
  {
    if s == [] || !IsDigit64(s[0]) then 0 else 1 + RunLength(s[1..])
  }

  lemma {:induction false} RunLengthUnique(s: string, n: nat)
    requires IsText(s)
    requires n <= |s| && (n < |s| ==> !IsDigit64(s[n])) && forall i :: 0 <= i < n ==> IsDigit64(s[i])
    ensures RunLength(s) == n
  {
    hide IsDigit64;
  }

  function Values(s: string, n: nat): (v: seq<Sextet>)
    requires IsText(s) && n <= |s| && forall i :: 0 <= i < n ==> IsDigit64(s[i])
    ensures |v| == n && forall i :: 0 <= i < n ==> v[i] == SextetOf(s[i])
  {
    seq(n, i requires 0 <= i < n => SextetOf(s[i]))
  }

  /** What a text stands for: the bytes of its longest prefix of Base64 characters, and what follows it. */
  function DecodeText(s: string, cap: nat): Option<(seq<Byte>, string)>
    requires IsText(s)
  {
    var v := Values(s, RunLength(s));
    if Canonical(v) && DecodedLength(|v|) <= cap then Some((DecodedBytes(v), s[|v|..])) else None
  }

  function SextetBefore(v: seq<Sextet>, i: nat, d: nat): Sextet
    requires i <= |v| && d > 0
  {
    if d <= i then v[i - d] else 0
  }

  /** The low 12 bits of the accumulator are the last two sextets read. */
  ghost predicate HoldsSextets(acc: U32, v: seq<Sextet>, i: nat)
    requires i <= |v|
  {
    acc % 4096 == SextetBefore(v, i, 2) * 64 + SextetBefore(v, i, 1)
  }

  lemma Push6(acc: U32, x: Sextet)
    ensures Wrap32(Shl(acc, 6) + x) % 4096 == acc % 64 * 64 + x
  {
    assert Pow2(6) == 64;
    ShlIsProduct(acc, 6);
    hide Shl, Pow2;
    var low := acc % 0x400_0000;
    Divide(64 * acc, 0x1_0000_0000, acc / 0x400_0000, low * 64);
    Divide(low * 64 + x, 4096, low / 64, low % 64 * 64 + x);
    RemainderOf26(acc);
  }

  lemma RemainderOf26(acc: U32)
    ensures acc % 0x400_0000 % 64 == acc % 64
  {
  }

  lemma LowSextet(acc: U32, p: Sextet, q: Sextet)
    requires acc % 4096 == p as int * 64 + q
    ensures acc % 64 == q
  {
    Divide(acc, 64, acc / 4096 * 64 + p, q);
  }

  lemma PushSextet(acc: U32, v: seq<Sextet>, i: nat)
    requires i < |v| && HoldsSextets(acc, v, i)
    ensures HoldsSextets(Wrap32(Shl(acc, 6) + v[i]), v, i + 1)
  {
    Push6(acc, v[i]);
    hide Shl, Wrap32;
    LowSextet(acc, SextetBefore(v, i, 2), SextetBefore(v, i, 1));
  }

  function Eight(acc: U32, n: nat): nat {
    And(Shr(acc, n), 0xFF)
  }

  lemma EightIs(acc: U32)
    ensures Eight(acc, 0) == acc % 256 && Eight(acc, 2) == acc / 4 % 256 && Eight(acc, 4) == acc / 16 % 256
  {
    ShrBy(acc);
    assert Pow2(8) == 256;
    AndLow(8, acc);
    AndLow(8, acc / 4);
    AndLow(8, acc / 16);
    hide And, Shr;
  }

  lemma EightOfSextets(acc: U32, p: Sextet, q: Sextet)
    requires acc % 4096 == p as int * 64 + q
    ensures Eight(acc, 4) == Join0(p, q) && Eight(acc, 2) == Join1(p, q) && Eight(acc, 0) == Join2(p, q)
  {
    EightIs(acc);
    hide Eight;
    var h := acc / 4096;
    EightParts(acc, h, p, q);
  }

  lemma EightParts(acc: U32, h: nat, p: nat, q: nat)
    requires acc == h * 4096 + p * 64 + q && p < 64 && q < 64
    ensures acc / 16 % 256 == p * 4 + q / 16
    ensures acc / 4 % 256 == p % 16 * 16 + q / 4
    ensures acc % 256 == p % 4 * 64 + q
  {
    EightHigh(acc, h, p, q);
    EightMiddle(acc, h, p, q);
    Divide(acc, 256, h * 16 + p / 4, p % 4 * 64 + q);
  }

  lemma EightHigh(acc: U32, h: nat, p: nat, q: nat)
    requires acc == h * 4096 + p * 64 + q && p < 64 && q < 64
    ensures acc / 16 % 256 == p * 4 + q / 16
  {
    Divide(acc, 16, h * 256 + p * 4 + q / 16, q % 16);
    Divide(h * 256 + p * 4 + q / 16, 256, h, p * 4 + q / 16);
  }

  lemma EightMiddle(acc: U32, h: nat, p: nat, q: nat)
    requires acc == h * 4096 + p * 64 + q && p < 64 && q < 64
    ensures acc / 4 % 256 == p % 16 * 16 + q / 4
  {
    Divide(acc, 4, h * 1024 + p * 16 + q / 4, q % 4);
    Divide(h * 1024 + p * 16 + q / 4, 256, h * 4 + p / 16, p % 16 * 16 + q / 4);
  }

  lemma WhereByte(m: nat, len: nat, accLen: nat)
    requires 6 * m == 8 * len + accLen && 8 <= accLen < 14
    ensures len == 3 * (len / 3) + len % 3
    ensures len % 3 == 0 ==> accLen == 12 && m == 4 * (len / 3) + 2
    ensures len % 3 == 1 ==> accLen == 10 && m == 4 * (len / 3) + 3
    ensures len % 3 == 2 ==> accLen == 8 && m == 4 * (len / 3) + 4
  {
  }

  lemma ByteFits(m: nat, n: nat, len: nat, accLen: nat)
    requires 6 * m == 8 * len + accLen && accLen >= 8 && m <= n
    ensures len < DecodedLength(n)
  {
  }

  lemma BeforeSextet(v: seq<Sextet>, i: nat, d: nat)
    requires d > 0 && i <= |v|
    ensures SextetBefore(v, i, d) == if d <= i then v[i - d] else 0
  {
  }

  lemma NextByte(acc: U32, accLen: nat, v: seq<Sextet>, m: nat, len: nat)
    requires m <= |v| && HoldsSextets(acc, v, m)
    requires 6 * m == 8 * len + accLen && 8 <= accLen < 14
    ensures len < DecodedLength(|v|) && Eight(acc, accLen - 8) == DecodedByte(v, len)
  {
    EightOfSextets(acc, SextetBefore(v, m, 2), SextetBefore(v, m, 1));
    hide *;
    WhereByte(m, len, accLen);
    ByteFits(m, |v|, len, accLen);
    BeforeSextet(v, m, 1);
    BeforeSextet(v, m, 2);
    ByteOfGroup(v, len / 3, len % 3);
  }

  /** The final test of from_base64. */
  predicate PendingOk(acc: U32, accLen: nat)
    requires accLen < 8
  {
    !(accLen > 4 || And(acc, Wrap32(Shl(1, accLen) - 1)) != 0)
  }

  lemma OneShifted()
    ensures Shl(1, 0) == 1 && Shl(1, 2) == 4 && Shl(1, 4) == 16
  {
    ShlIsProduct(1, 2);
    ShlIsProduct(1, 4);
    assert Pow2(2) == 4 && Pow2(4) == 16;
  }

  lemma PendingIs(acc: U32, q: Sextet)
    requires acc % 64 == q
    ensures PendingOk(acc, 0) && (PendingOk(acc, 2) <==> Low2(q)) && (PendingOk(acc, 4) <==> Low4(q))
    ensures !PendingOk(acc, 6)
  {
    OneShifted();
    assert Pow2(0) == 1 && Pow2(2) == 4 && Pow2(4) == 16;
    AndLow(0, acc);
    AndLow(2, acc);
    AndLow(4, acc);
    hide And, Shl, Pow2;
    LowBits(acc, q);
    hide Low2, Low4;
  }

  lemma LowBits(acc: U32, q: Sextet)
    requires acc % 64 == q
    ensures acc % 4 == 0 <==> Low2(q)
    ensures acc % 16 == 0 <==> Low4(q)
  {
    var h := acc / 64;
    Divide(acc, 4, h * 16 + q / 4, q % 4);
    Divide(acc, 16, h * 4 + q / 16, q % 16);
  }

  lemma WhereEnd(n: nat, len: nat, accLen: nat)
    requires 6 * n == 8 * len + accLen && accLen < 8
    ensures len == DecodedLength(n)
    ensures n % 4 == 0 ==> accLen == 0
    ensures n % 4 == 1 ==> accLen == 6
    ensures n % 4 == 2 ==> accLen == 4
    ensures n % 4 == 3 ==> accLen == 2
  {
    var g := n / 4;
    Pending(g, n % 4, len, accLen);
    LengthInGroups(g, n % 4);
    hide DecodedLength;
  }

  lemma Pending(g: nat, j: nat, len: nat, accLen: nat)
    requires j < 4 && 6 * (4 * g + j) == 8 * len + accLen && accLen < 8
    ensures j == 0 ==> accLen == 0 && len == 3 * g
    ensures j == 1 ==> accLen == 6 && len == 3 * g
    ensures j == 2 ==> accLen == 4 && len == 3 * g + 1
    ensures j == 3 ==> accLen == 2 && len == 3 * g + 2
  {
    var e := len - 3 * g;
    assert 8 * e + accLen == 6 * j;
    assert 0 <= e <= 2;
  }

  lemma LengthInGroups(g: nat, j: nat)
    requires j < 4
    ensures DecodedLength(4 * g + j) == 3 * g + if j < 2 then 0 else j - 1
  {
  }

  /** The pending bits are acceptable exactly for canonical texts. */
  lemma EndIsCanonical(acc: U32, accLen: nat, v: seq<Sextet>, len: nat)
    requires HoldsSextets(acc, v, |v|) && 6 * |v| == 8 * len + accLen && accLen < 8
    ensures len == DecodedLength(|v|) && (PendingOk(acc, accLen) <==> Canonical(v))
  {
    LowSextet(acc, SextetBefore(v, |v|, 2), SextetBefore(v, |v|, 1));
    hide HoldsSextets, PendingOk, Low2, Low4, DecodedLength;
    PendingIs(acc, SextetBefore(v, |v|, 1));
    WhereEnd(|v|, len, accLen);
  }

  /** from_base64: accepts exactly the canonical texts whose bytes fit, and returns the text after the run. */
  method FromBase64(dst: array<Byte>, cap: nat, s: string) returns (r: Option<(nat, string)>)
    requires IsText(s) && cap <= dst.Length
    modifies dst
    ensures r.Some? <==> DecodeText(s, cap).Some?
    ensures r.Some? ==>
      var d := DecodeText(s, cap).value;
      r.value == (|d.0|, d.1) && |d.0| <= cap && dst[..] == d.0 + old(dst[|d.0|..])
    ensures dst[cap..] == old(dst[cap..])
  {
    hide *;
    ghost var n := RunLength(s);
    ghost var v := Values(s, n);
    ghost var before := dst[..];
    var acc: U32, accLen, i, len := 0, 0, 0, 0;
    StartSextets(v);
    while true
      invariant 0 <= i <= n && 0 <= len <= cap && len <= DecodedLength(n)
      invariant 6 * i == 8 * len + accLen && 0 <= accLen < 8
      invariant HoldsSextets(acc, v, i)
      invariant forall j :: 0 <= j < len ==> dst[j] == DecodedByte(v, j)
      invariant forall j :: len <= j < dst.Length ==> dst[j] == before[j]
      decreases |s| - i
    {
      var d := CharValueOrEnd(s, i);
      RunContinues(s, i);
      if d == 255 {
        break;
      }
      PushSextet(acc, v, i);
      i := i + 1;
      acc := Wrap32(Shl(acc, 6) + d);
      accLen := accLen + 6;
      if accLen >= 8 {
        NextByte(acc, accLen, v, i, len);
        accLen := accLen - 8;
        if len >= cap {
          Refused(s, cap);
          return None;
        }
        dst[len] := Eight(acc, accLen);
        len := len + 1;
      }
    }
    EndIsCanonical(acc, accLen, v, len);
    Decided(s, cap);
    if !PendingOk(acc, accLen) {
      return None;
    }
    return Some((len, s[i..]));
  }

  /** *src at position i, where the text ends with a zero. */
  function CharValueOrEnd(s: string, i: nat): nat
    requires IsText(s) && i <= |s|
  {
    if i < |s| then CharValue(s[i]) else CharValue('\0')
  }

  lemma StartSextets(v: seq<Sextet>)
    ensures HoldsSextets(0, v, 0) && DecodedLength(|v|) >= 0
  {
  }

  lemma RunContinues(s: string, i: nat)
    requires IsText(s) && i <= RunLength(s)
    ensures CharValueOrEnd(s, i) == 255 <==> i == RunLength(s)
    ensures i < RunLength(s) ==> CharValueOrEnd(s, i) == Values(s, RunLength(s))[i]
  {
    CharValueIs('\0');
    hide CharValue, RunLength;
  }

  lemma Refused(s: string, cap: nat)
    requires IsText(s) && cap < DecodedLength(RunLength(s))
    ensures DecodeText(s, cap).None?
  {
  }

  lemma Decided(s: string, cap: nat)
    requires IsText(s)
    ensures var v := Values(s, RunLength(s));
            var d := DecodeText(s, cap);
            && |v| == RunLength(s) <= |s|
            && (d.Some? <==> Canonical(v) && DecodedLength(|v|) <= cap)
            && (d.Some? ==>
                  && |d.value.0| == DecodedLength(|v|) && d.value.1 == s[|v|..]
                  && forall j :: 0 <= j < |d.value.0| ==> d.value.0[j] == DecodedByte(v, j))
  {
    hide Canonical, Values, RunLength, DecodedByte;
  }

  // ---- round trips -----------------------------------------------------------------------------

  lemma TextOfValues(v: seq<Sextet>, rest: string)
    requires IsText(rest) && (rest != "" ==> !IsDigit64(rest[0]))
    ensures IsText(Chars(v) + rest) && RunLength(Chars(v) + rest) == |v| && Values(Chars(v) + rest, |v|) == v
  {
    hide *;
    var s := Chars(v) + rest;
    forall i | 0 <= i < |v|
      ensures 0 < s[i] as int < 256 && IsDigit64(s[i]) && SextetOf(s[i]) == v[i]
    {
      ReadBack(v[i]);
      assert s[i] == Chars(v)[i];
    }
    assert forall i :: |v| <= i < |s| ==> s[i] == rest[i - |v|];
    TextParts(s, rest);
    RunLengthUnique(s, |v|);
  }

  lemma TextParts(s: string, rest: string)
    requires IsText(rest) && |rest| <= |s| && forall i :: |s| - |rest| <= i < |s| ==> s[i] == rest[i - (|s| - |rest|)]
    requires forall i :: 0 <= i < |s| - |rest| ==> 0 < s[i] as int < 256
    ensures IsText(s)
  {
  }

  lemma ReadBack(x: Sextet)
    ensures 0 < Alphabet(x) as int < 128 && IsDigit64(Alphabet(x)) && SextetOf(Alphabet(x)) == x
  {
    AlphabetInverse(x);
    hide CharValue;
  }

  /** Decoding inverts encoding on every byte string, whatever follows it in the text. */
  lemma DecodeTextOfEncode(b: seq<Byte>, rest: string, cap: nat)
    requires IsText(rest) && (rest != "" ==> !IsDigit64(rest[0]))
    ensures IsText(Encode(b) + rest)
    ensures DecodeText(Encode(b) + rest, cap) == if |b| <= cap then Some((b, rest)) else None
  {
    var v := Sextets(b);
    TextOfValues(v, rest);
    DecodeEncode(b);
    hide RunLength, Values, Canonical, Sextets, DecodedBytes, Chars, IsText, IsDigit64;
    assert (Chars(v) + rest)[|v|..] == rest;
  }

  lemma ValueAlphabet(c: char)
    requires 0 < c as int < 256 && IsDigit64(c)
    ensures Alphabet(SextetOf(c)) == c <==> c as int < 128
  {
    hide *;
    ValueOf(c);
    if c as int < 128 {
      AlphabetOfAscii(c);
    } else {
      AlphabetInverse(63);
    }
  }

  lemma ValueOf(c: char)
    requires 0 < c as int < 256
    ensures IsDigit64(c) <==> (c as int < 128 ==> AsciiValue(c as int) != 255)
    ensures IsDigit64(c) ==> SextetOf(c) == if c as int < 128 then AsciiValue(c as int) else 63
  {
    hide CharValue, AsciiValue;
    CharValueIs(c);
  }

  lemma AlphabetOfAscii(c: char)
    requires 0 < c as int < 128 && AsciiValue(c as int) != 255
    ensures AsciiValue(c as int) < 64 && Alphabet(AsciiValue(c as int)) == c
  {
  }

  /** Encoding inverts decoding exactly when the decoded text is ASCII: the decoder reads every other
      character as the value 63. */
  lemma EncodeOfDecodeText(s: string, cap: nat)
    requires IsText(s) && DecodeText(s, cap).Some?
    ensures var d := DecodeText(s, cap).value;
            s == Encode(d.0) + d.1 <==> IsAscii(s[..RunLength(s)])
    ensures var d := DecodeText(s, cap).value;
            |d.0| <= cap && |Encode(d.0)| == RunLength(s) && d.1 == s[RunLength(s)..]
    ensures var rest := DecodeText(s, cap).value.1;
            IsText(rest) && (rest != "" ==> !IsDigit64(rest[0]))
  {
    hide *;
    var n := RunLength(s);
    var v := Values(s, n);
    Accepted(s, cap);
    EncodeDecode(v);
    EncodeIs(DecodedBytes(v));
    forall i | 0 <= i < n
      ensures Chars(v)[i] == s[i] <==> s[i] as int < 128
    {
      TextChar(s, i);
      ValueAlphabet(s[i]);
    }
    AsciiPrefix(s, n);
    SameText(Chars(v), s, n);
    RestIsText(s, n);
  }

  lemma Accepted(s: string, cap: nat)
    requires IsText(s) && DecodeText(s, cap).Some?
    ensures var v := Values(s, RunLength(s));
            && Canonical(v) && |DecodedBytes(v)| <= cap
            && DecodeText(s, cap).value == (DecodedBytes(v), s[RunLength(s)..])
  {
    hide Canonical, Values, RunLength, DecodedByte;
  }

  lemma EncodeIs(b: seq<Byte>)
    ensures Encode(b) == Chars(Sextets(b))
  {
  }

  lemma TextChar(s: string, i: nat)
    requires IsText(s) && i < |s|
    ensures 0 < s[i] as int < 256
  {
  }

  lemma AsciiPrefix(s: string, n: nat)
    requires IsText(s) && n <= |s|
    ensures IsAscii(s[..n]) <==> forall i :: 0 <= i < n ==> s[i] as int < 128
  {
    assert forall i :: 0 <= i < n ==> s[..n][i] == s[i];
  }

  lemma SameText(t: string, s: string, n: nat)
    requires |t| == n <= |s|
    ensures s == t + s[n..] <==> forall i :: 0 <= i < n ==> t[i] == s[i]
  {
    if s == t + s[n..] {
      assert forall i :: 0 <= i < n ==> (t + s[n..])[i] == t[i];
    }
  }

  lemma RestIsText(s: string, n: nat)
    requires IsText(s) && n <= |s|
    ensures IsText(s[n..]) && (s[n..] != "" ==> s[n..][0] == s[n])
  {
  }
}
