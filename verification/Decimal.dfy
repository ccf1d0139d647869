/** Decimal integers of the hash string: minimal digits, and an `unsigned long` of either platform width. */
module Decimal {
  import opened Wrappers

  predicate IsDigit(c: char) {
    '0' <= c <= '9'
  }

  /** A number as printed by %lu. */
  function Digits(n: nat): (s: string)
    ensures |s| >= 1 && forall i :: 0 <= i < |s| ==> IsDigit(s[i])
  {
    if n < 10 then [DigitChar(n)] else Digits(n / 10) + [DigitChar(n % 10)]
  }

  function DigitChar(d: nat): char
    requires d < 10
  {
    '0' + d as char
  }

  function DigitValue(c: char): nat
    requires IsDigit(c)
  {
    (c - '0') as int
  }

  /** numlen */
  method NumLen(num: nat) returns (len: nat)
    ensures len == |Digits(num)|
  {
    len := 1;
    var n := num;
    while n >= 10
      invariant len + |Digits(n)| == |Digits(num)| + 1
    {
      len := len + 1;
      n := n / 10;
    }
  }

  /** Length of the longest prefix of digits. */
  function DigitRun(s: string): (n: nat)
    ensures n <= |s| && (n < |s| ==> !IsDigit(s[n])) && forall i :: 0 <= i < n ==> IsDigit(s[i])
  {
    if s == "" || !IsDigit(s[0]) then 0 else 1 + DigitRun(s[1..])
  }

  lemma DigitRunUnique(s: string, n: nat)
    requires n <= |s| && (n < |s| ==> !IsDigit(s[n])) && forall i :: 0 <= i < n ==> IsDigit(s[i])
    ensures DigitRun(s) == n
  {
  }

  /** Value of a string of digits. */
  function NumberOf(s: string): nat
    requires forall i :: 0 <= i < |s| ==> IsDigit(s[i])
  {
    if s == "" then 0 else 10 * NumberOf(s[..|s| - 1]) + DigitValue(s[|s| - 1])
  }

  /** The value of the leading digits and the text after them; none without a digit, with a superfluous
      leading zero, or above the largest unsigned long. */
  function ParseDecimal(s: string, ulongMax: nat): Option<(nat, string)> {
    var n := DigitRun(s);
    if n == 0 || (s[0] == '0' && n > 1) || NumberOf(s[..n]) > ulongMax then None
    else Some((NumberOf(s[..n]), s[n..]))
  }

  lemma {:induction false} NumberGrows(s: string, n: nat)
    requires n <= |s| && forall i :: 0 <= i < |s| ==> IsDigit(s[i])
    ensures NumberOf(s[..n]) <= NumberOf(s)
    decreases |s| - n
  {
    if n == |s| {
      assert s[..n] == s;
    } else {
      NumberGrows(s, n + 1);
      assert s[..n + 1][..n] == s[..n];
    }
  }

  /** decode_decimal: overflow is caught before it happens, digit by digit. */
  method DecodeDecimal(str: string, ulongMax: nat) returns (r: Option<(nat, string)>)
    ensures r == ParseDecimal(str, ulongMax)
  {
    ghost var n := DigitRun(str);
    var acc, i := 0, 0;
    while i < |str| && IsDigit(str[i])
      invariant 0 <= i <= n && acc == NumberOf(str[..i]) <= ulongMax
    {
      ghost var before := str[..i + 1];
      assert before[..i] == str[..i] && before[i] == str[i];
      NumberGrows(str[..n], i + 1);
      assert str[..n][..i + 1] == before;
      var c := DigitValue(str[i]);
      if acc > ulongMax / 10 {
        return None;
      }
      acc := acc * 10;
      if c > ulongMax - acc {
        return None;
      }
      acc := acc + c;
      i := i + 1;
    }
    if i == 0 || (str[0] == '0' && i != 1) {
      return None;
    }
    return Some((acc, str[i..]));
  }

  lemma {:induction false} NumberOfDigits(n: nat)
    ensures NumberOf(Digits(n)) == n && (n > 0 ==> Digits(n)[0] != '0') && (n == 0 ==> |Digits(n)| == 1)
  {
    var s := Digits(n);
    if n < 10 {
      assert s[..0] == "";
    } else {
      NumberOfDigits(n / 10);
      assert s[..|s| - 1] == Digits(n / 10);
    }
  }

  lemma {:induction false} DigitsOfNumber(s: string)
    requires s != "" && (forall i :: 0 <= i < |s| ==> IsDigit(s[i])) && (s[0] != '0' || |s| == 1)
    ensures Digits(NumberOf(s)) == s
    ensures s[0] != '0' ==> NumberOf(s) > 0
  {
    var t := s[..|s| - 1];
    if |s| == 1 {
      assert NumberOf(t) == 0;
    } else {
      DigitsOfNumber(t);
      assert s == t + [s[|s| - 1]];
    }
  }

  lemma PrintedIsParsed(v: nat, rest: string, ulongMax: nat)
    requires v <= ulongMax && (rest == "" || !IsDigit(rest[0]))
    ensures ParseDecimal(Digits(v) + rest, ulongMax) == Some((v, rest))
  {
    var s := Digits(v) + rest;
    NumberOfDigits(v);
    DigitRunUnique(s, |Digits(v)|);
    assert s[..|Digits(v)|] == Digits(v) && s[|Digits(v)|..] == rest;
  }

  /** The parser accepts exactly the printed numbers, each from one text only. */
  lemma ParseDecimalIff(s: string, ulongMax: nat, v: nat, rest: string)
    ensures ParseDecimal(s, ulongMax) == Some((v, rest))
      <==> s == Digits(v) + rest && v <= ulongMax && (rest == "" || !IsDigit(rest[0]))
  {
    if ParseDecimal(s, ulongMax) == Some((v, rest)) {
      var n := DigitRun(s);
      DigitsOfNumber(s[..n]);
      assert s == s[..n] + s[n..];
    }
    if v <= ulongMax && (rest == "" || !IsDigit(rest[0])) {
      PrintedIsParsed(v, rest, ulongMax);
    }
  }
}
