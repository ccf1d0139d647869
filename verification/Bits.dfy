/** Bitwise operators of C on unsigned integers, and the branch-free comparisons built from them. */
module Bits {
  import opened Arithmetic
  import opened Words

  function And(a: nat, b: nat): nat {
    if a == 0 || b == 0 then 0
    else 2 * And(a / 2, b / 2) + if a % 2 == 1 && b % 2 == 1 then 1 else 0
  }

  function Or(a: nat, b: nat): nat {
    if a == 0 then b else if b == 0 then a
    else 2 * Or(a / 2, b / 2) + if a % 2 == 1 || b % 2 == 1 then 1 else 0
  }

  function Xor(a: nat, b: nat): nat {
    if a == 0 then b else if b == 0 then a
    else 2 * Xor(a / 2, b / 2) + if a % 2 != b % 2 then 1 else 0
  }

  /** x >> n */
  function Shr(x: nat, n: nat): nat {
    if n == 0 then x else Shr(x, n - 1) / 2
  }

  /** x << n in 32 bits */
  function Shl(x: U32, n: nat): U32 {
    if n == 0 then x else Wrap32(2 * Shl(x, n - 1))
  }

  function Pow2(n: nat): nat {
    if n == 0 then 1 else 2 * Pow2(n - 1)
  }

  /** A mask of n low ones keeps the remainder modulo 2^n. */
  lemma {:induction false} AndOnes(n: nat, x: nat)
    ensures Pow2(n) > 0 && And(Pow2(n) - 1, x) == x % Pow2(n)
  {
    if n > 0 {
      AndOnes(n - 1, x / 2);
      var m := Pow2(n - 1);
      HalfMod(x, m);
      assert (2 * m - 1) / 2 == m - 1;
    }
  }

  lemma {:induction false} AndCommutes(a: nat, b: nat)
    ensures And(a, b) == And(b, a)
  {
    if a != 0 && b != 0 {
      AndCommutes(a / 2, b / 2);
    }
  }

  lemma AndLow(n: nat, x: nat)
    ensures Pow2(n) > 0 && And(x, Pow2(n) - 1) == x % Pow2(n)
  {
    AndOnes(n, x);
    AndCommutes(x, Pow2(n) - 1);
  }

  lemma Reassociate(a: nat, b: nat)
    ensures 2 * a * b == 2 * (a * b)
  {
  }

  lemma WrapTwice(y: nat)
    ensures Wrap32(2 * Wrap32(y)) == Wrap32(2 * y)
  {
    var q := y / 0x1_0000_0000;
    assert 2 * y == 2 * q * 0x1_0000_0000 + 2 * Wrap32(y);
  }

  lemma {:induction false} ShlIsProduct(x: U32, n: nat)
    ensures Shl(x, n) == Wrap32(Pow2(n) * x)
  {
    if n > 0 {
      ShlIsProduct(x, n - 1);
      var p := Pow2(n - 1) * x;
      Reassociate(Pow2(n - 1), x);
      WrapTwice(p);
      hide Wrap32;
    }
  }

  lemma HalfMod(x: nat, m: nat)
    requires m > 0
    ensures x % (2 * m) == 2 * (x / 2 % m) + x % 2
  {
    var q, r := x / 2 / m, x / 2 % m;
    assert x / 2 == q * m + r;
    assert x == q * (2 * m) + (2 * r + x % 2) by {
      assert q * (2 * m) == 2 * (q * m);
    }
    Divide(x, 2 * m, q, 2 * r + x % 2);
  }

  lemma {:induction false} XorZero(a: nat, b: nat)
    ensures Xor(a, b) == 0 <==> a == b
  {
    if a != 0 && b != 0 {
      XorZero(a / 2, b / 2);
    }
  }

  lemma {:induction false} XorBelow(n: nat, a: nat, b: nat)
    requires a < Pow2(n) && b < Pow2(n)
    ensures Xor(a, b) < Pow2(n)
  {
    if a != 0 && b != 0 {
      XorBelow(n - 1, a / 2, b / 2);
    }
  }

  lemma {:induction false} XorAtLeast(a: nat, b: nat)
    ensures Xor(a, b) + b >= a
  {
    if a != 0 && b != 0 {
      XorAtLeast(a / 2, b / 2);
    }
  }

  lemma {:induction false} OrZero(a: nat, b: nat)
    ensures Or(a, b) == 0 <==> a == 0 && b == 0
  {
    if a != 0 && b != 0 {
      OrZero(a / 2, b / 2);
    }
  }

  lemma {:induction false} OrBelow(n: nat, a: nat, b: nat)
    requires a < Pow2(n) && b < Pow2(n)
    ensures Or(a, b) < Pow2(n)
  {
    if a != 0 && b != 0 {
      OrBelow(n - 1, a / 2, b / 2);
    }
  }

  /** EQ: all ones in the low byte when equal, for values of at most 8 bits. */
  function Eq8(x: U32, y: U32): nat {
    255 - Wrap32(0 - Xor(x, y)) / 256 % 256
  }

  /** GT */
  function Gt8(x: U32, y: U32): nat {
    Wrap32(y - x) / 256 % 256
  }

  function Ge8(x: U32, y: U32): nat {
    255 - Gt8(y, x)
  }

  function Lt8(x: U32, y: U32): nat {
    Gt8(y, x)
  }

  function Le8(x: U32, y: U32): nat {
    Ge8(y, x)
  }

  lemma Eq8Bytes(x: U32, y: U32)
    requires x < 256 && y < 256
    ensures Eq8(x, y) == if x == y then 255 else 0
  {
    assert Pow2(8) == 256;
    hide Xor, Pow2;
    XorZero(x, y);
    XorBelow(8, x, y);
    if x == y {
      assert Eq8(x, y) == 255 - Wrap32(0) / 256 % 256;
    } else {
      SmallNegated(Xor(x, y));
      hide Wrap32;
    }
  }

  lemma SmallNegated(z: nat)
    requires 0 < z < 256
    ensures Wrap32(0 - z) / 256 % 256 == 255
  {
    assert Wrap32(0 - z) == 0x1_0000_0000 - z;
    Divide(0x1_0000_0000 - z, 256, 0xFF_FFFF, 256 - z);
  }

  /** Outside the byte range the macro breaks: a sign-extended negative character equals everything. */
  lemma Eq8Negative(x: U32, y: U32)
    requires 0xFFFF_FF80 <= x && y < 128
    ensures Eq8(x, y) == 255
  {
    assert Pow2(8) == 0x100 && Pow2(16) == 0x1_0000 && Pow2(24) == 0x100_0000 && Pow2(32) == 0x1_0000_0000;
    XorBelow(32, x, y);
    XorAtLeast(x, y);
    hide Pow2, Xor;
    NearTop(Xor(x, y));
  }

  lemma NearTop(z: U32)
    requires 0xFFFF_FF00 < z
    ensures 255 - Wrap32(0 - z) / 256 % 256 == 255
  {
    assert Wrap32(0 - z) == 0x1_0000_0000 - z;
  }

  /** argon2_compare: 0 when all bytes are equal, -1 otherwise. */
  method Compare(b1: seq<Byte>, b2: seq<Byte>) returns (r: int)
    requires |b1| == |b2|
    ensures r == if b1 == b2 then 0 else -1
  {
    var d: nat := 0;
    var i := 0;
    while i < |b1|
      invariant 0 <= i <= |b1| && 0 <= d < 256
      invariant d == 0 <==> b1[..i] == b2[..i]
    {
      assert Pow2(8) == 256;
      XorBelow(8, b1[i], b2[i]);
      XorZero(b1[i], b2[i]);
      OrBelow(8, d, Xor(b1[i], b2[i]));
      OrZero(d, Xor(b1[i], b2[i]));
      assert b1[..i + 1] == b1[..i] + [b1[i]] && b2[..i + 1] == b2[..i] + [b2[i]];
      d := Or(d, Xor(b1[i], b2[i]));
      i := i + 1;
    }
    assert b1[..i] == b1 && b2[..i] == b2;
    // (d - 1) >> 8 is an arithmetic shift of a signed int: -1 for d = 0, else 0
    var less: int := d as int - 1;
    var shifted: int := if less < 0 then -1 else less / 256;
    r := shifted % 2 - 1;
  }
}
