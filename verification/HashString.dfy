/** The textual form of an Argon2 hash: $argon2<T>[$v=<num>]$m=<num>,t=<num>,p=<num>$<salt>$<output>.
    What is printed, what is accepted, and how the two relate. */
module HashString {
  import opened Wrappers
  import opened Words
  import opened Base64
  import opened Base64Stream
  import opened Base64Loops
  import opened Decimal
  import opened Argon2Context

  function TypeString(kind: Kind): string {
    match kind
    case Argon2d => "argon2d"
    case Argon2i => "argon2i"
    case Argon2id => "argon2id"
  }

  // ---- printing --------------------------------------------------------------------------------

  datatype Fields = Fields(version: U32, mCost: U32, tCost: U32, lanes: U32, salt: seq<Byte>, out: seq<Byte>)

  function SaltText(f: Fields): string {
    Encode(f.salt) + ("$" + Encode(f.out))
  }

  /** The text up to the binary fields, followed by any tail. */
  function CostText(f: Fields, tail: string): string {
    Digits(f.mCost) + (",t=" + (Digits(f.tCost) + (",p=" + (Digits(f.lanes) + ("$" + tail)))))
  }

  function Body(f: Fields, tail: string): string {
    "$v=" + (Digits(f.version) + ("$m=" + CostText(f, tail)))
  }

  function TextWith(f: Fields, kind: Kind, tail: string): string {
    "$" + (TypeString(kind) + Body(f, tail))
  }

  function Text(f: Fields, kind: Kind): string {
    TextWith(f, kind, SaltText(f))
  }

  function FieldsOf(ctx: Context): Fields
    requires ctx.salt.Data? && ctx.out.Data?
  {
    Fields(ctx.version, ctx.mCost, ctx.tCost, ctx.lanes, ctx.salt.bytes, ctx.out.bytes)
  }

  // ---- parsing ---------------------------------------------------------------------------------

  /** The text after a required prefix. */
  function Expect(s: string, prefix: string): (r: Option<string>)
    ensures r.Some? && IsText(s) ==> IsText(r.value)
  {
    if prefix <= s then Some(s[|prefix|..]) else None
  }

  function ParseU32(s: string, ulongMax: nat): (r: Option<(U32, string)>)
    ensures r.Some? && IsText(s) ==> IsText(r.value.1)
  {
    match ParseDecimal(s, ulongMax)
    case Some((v, rest)) => if v > 0xFFFF_FFFF then None else Some((v, rest))
    case None => None
  }

  /** A number and the text required after it. */
  function ParseNumberThen(s: string, ulongMax: nat, after: string): (r: Option<(U32, string)>)
    ensures r.Some? && IsText(s) ==> IsText(r.value.1)
  {
    match ParseU32(s, ulongMax)
    case None => None
    case Some((v, s1)) =>
      match Expect(s1, after)
      case None => None
      case Some(s2) => Some((v, s2))
  }

  /** $argon2<T> */
  function ParseHead(s: string, kind: Kind): (r: Option<string>)
    ensures r.Some? && IsText(s) ==> IsText(r.value)
  {
    match Expect(s, "$")
    case None => None
    case Some(s1) => Expect(s1, TypeString(kind))
  }

  /** The optional version, 0x10 when the field is absent, and "$m=". */
  function ParseVersion(s: string, ulongMax: nat): (r: Option<(U32, string)>)
    ensures r.Some? && IsText(s) ==> IsText(r.value.1)
  {
    match Expect(s, "$v=")
    case Some(s1) => ParseNumberThen(s1, ulongMax, "$m=")
    case None =>
      match Expect(s, "$m=")
      case None => None
      case Some(s2) => Some((VERSION_10, s2))
  }

  /** <num>,t=<num>,p=<num>$ */
  function ParseCosts(s: string, ulongMax: nat): (r: Option<(U32, U32, U32, string)>)
    ensures r.Some? && IsText(s) ==> IsText(r.value.3)
  {
    match ParseNumberThen(s, ulongMax, ",t=")
    case None => None
    case Some((m, s1)) =>
      match ParseNumberThen(s1, ulongMax, ",p=")
      case None => None
      case Some((t, s2)) =>
        match ParseNumberThen(s2, ulongMax, "$")
        case None => None
        case Some((p, s3)) => Some((m, t, p, s3))
  }

  /** <salt>$<output>, within the capacities of the two buffers. */
  function ParseBinary(s: string, saltCap: nat, outCap: nat): Option<(seq<Byte>, seq<Byte>, string)>
    requires IsText(s)
  {
    match DecodeText(s, saltCap)
    case None => None
    case Some((salt, s1)) =>
      EncodeOfDecodeText(s, saltCap);
      match Expect(s1, "$")
      case None => None
      case Some(s2) =>
        match DecodeText(s2, outCap)
        case None => None
        case Some((out, s3)) => Some((salt, out, s3))
  }

  function Parse(s: string, kind: Kind, saltCap: nat, outCap: nat, ulongMax: nat): Option<(Fields, string)>
    requires IsText(s)
  {
    match ParseHead(s, kind)
    case None => None
    case Some(s1) =>
      match ParseVersion(s1, ulongMax)
      case None => None
      case Some((version, s2)) =>
        match ParseCosts(s2, ulongMax)
        case None => None
        case Some((m, t, p, s3)) =>
          match ParseBinary(s3, saltCap, outCap)
          case None => None
          case Some((salt, out, rest)) => Some((Fields(version, m, t, p, salt, out), rest))
  }

  /** The parameter block after a successful parse: one thread per lane, defaults elsewhere, the password kept. */
  function DecodedContext(f: Fields, pwd: Buffer): Context {
    Context(Data(f.out), pwd, Data(f.salt), Null(0), Null(0), f.tCost, f.mCost, f.lanes, f.lanes, f.version, false,
            false)
  }

  datatype Decoded = Rejected(code: Code) | Accepted(ctx: Context)

  /** decode_string: parameters are validated before trailing characters are looked at. */
  function Decode(s: string, kind: Kind, pwd: Buffer, saltCap: nat, outCap: nat, ulongMax: nat): Decoded
    requires IsText(s)
  {
    match Parse(s, kind, saltCap, outCap, ulongMax)
    case None => Rejected(DecodingFail)
    case Some((f, rest)) =>
      var ctx := DecodedContext(f, pwd);
      if !ValidateInputs(ctx).OK? then Rejected(ValidateInputs(ctx))
      else if rest != "" then Rejected(DecodingFail)
      else Accepted(ctx)
  }

  // ---- each step reads exactly what is printed -------------------------------------------------

  lemma ExpectIff(s: string, prefix: string, rest: string)
    ensures Expect(s, prefix) == Some(rest) <==> s == prefix + rest
  {
    if prefix <= s {
      assert s == prefix + s[|prefix|..];
    }
    if s == prefix + rest {
      assert s[|prefix|..] == rest;
    }
  }

  predicate StartsNonDigit(s: string) {
    s != "" && !IsDigit(s[0])
  }

  lemma NumberThenIff(s: string, ulongMax: nat, after: string, v: U32, rest: string)
    requires ulongMax >= 0xFFFF_FFFF && StartsNonDigit(after)
    ensures ParseNumberThen(s, ulongMax, after) == Some((v, rest)) <==> s == Digits(v) + (after + rest)
  {
    ParseDecimalIff(s, ulongMax, v, after + rest);
    match ParseDecimal(s, ulongMax)
    case None =>
    case Some((w, s1)) => ExpectIff(s1, after, rest);
      ParseDecimalIff(s, ulongMax, w, s1);
      hide Expect, ParseDecimal, Digits, IsDigit;
      if ParseNumberThen(s, ulongMax, after) == Some((v, rest)) {
        assert w == v && s1 == after + rest;
      }
  }

  lemma CostsIff(s: string, ulongMax: nat, m: U32, t: U32, p: U32, rest: string)
    requires ulongMax >= 0xFFFF_FFFF
    ensures ParseCosts(s, ulongMax) == Some((m, t, p, rest))
      <==> s == Digits(m) + (",t=" + (Digits(t) + (",p=" + (Digits(p) + ("$" + rest)))))
  {
    hide Digits, ParseNumberThen;
    var r2 := Digits(p) + ("$" + rest);
    var r1 := Digits(t) + (",p=" + r2);
    NumberThenIff(s, ulongMax, ",t=", m, r1);
    NumberThenIff(r1, ulongMax, ",p=", t, r2);
    NumberThenIff(r2, ulongMax, "$", p, rest);
    if ParseCosts(s, ulongMax) == Some((m, t, p, rest)) {
      var s1 := ParseNumberThen(s, ulongMax, ",t=").value.1;
      var s2 := ParseNumberThen(s1, ulongMax, ",p=").value.1;
      NumberThenIff(s2, ulongMax, "$", p, rest);
      NumberThenIff(s1, ulongMax, ",p=", t, s2);
      NumberThenIff(s, ulongMax, ",t=", m, s1);
    }
  }

  lemma VersionIff(s: string, ulongMax: nat, v: U32, rest: string)
    requires ulongMax >= 0xFFFF_FFFF
    ensures ParseVersion(s, ulongMax) == Some((v, rest))
      <==> s == "$v=" + (Digits(v) + ("$m=" + rest)) || (v == VERSION_10 && s == "$m=" + rest)
  {
    hide Digits, ParseNumberThen, Expect;
    var r1 := Digits(v) + ("$m=" + rest);
    ExpectIff(s, "$v=", r1);
    ExpectIff(s, "$m=", rest);
    NumberThenIff(r1, ulongMax, "$m=", v, rest);
    match Expect(s, "$v=")
    case None =>
    case Some(s1) => ExpectIff(s, "$v=", s1);
      NumberThenIff(s1, ulongMax, "$m=", v, rest);
      assert s[1] == 'v';
  }

  lemma HeadIff(s: string, kind: Kind, rest: string)
    ensures ParseHead(s, kind) == Some(rest) <==> s == "$" + (TypeString(kind) + rest)
  {
    hide TypeString, Expect;
    ExpectIff(s, "$", TypeString(kind) + rest);
    ExpectIff(TypeString(kind) + rest, TypeString(kind), rest);
    match Expect(s, "$")
    case None =>
    case Some(s1) =>
      ExpectIff(s, "$", s1);
      ExpectIff(s1, TypeString(kind), rest);
  }

  lemma DollarEnds(rest: string)
    requires IsText(rest)
    ensures IsText("$" + rest) && !IsDigit64(("$" + rest)[0])
  {
    hide *;
    DollarValue();
    var s := "$" + rest;
    assert s[0] == '$' && forall i :: 1 <= i < |s| ==> s[i] == rest[i - 1];
    TextParts(s, rest);
  }

  lemma DollarValue()
    ensures !IsDigit64('$')
  {
    hide IsDigit64;
    ValueOf('$');
  }

  /** Printed binary fields are read back whenever they fit. */
  lemma BinaryOfPrinted(salt: seq<Byte>, out: seq<Byte>, saltCap: nat, outCap: nat)
    requires |salt| <= saltCap && |out| <= outCap
    ensures IsText(Encode(salt) + ("$" + Encode(out)))
    ensures ParseBinary(Encode(salt) + ("$" + Encode(out)), saltCap, outCap) == Some((salt, out, ""))
  {
    hide DecodeText, Encode, IsDigit64, RunLength;
    DecodeTextOfEncode(out, "", outCap);
    assert Encode(out) + "" == Encode(out);
    DollarEnds(Encode(out));
    DecodeTextOfEncode(salt, "$" + Encode(out), saltCap);
    ExpectIff("$" + Encode(out), "$", Encode(out));
  }

  lemma AsciiParts(a: string, b: string)
    ensures IsAscii(a + b) <==> IsAscii(a) && IsAscii(b)
  {
    assert forall i :: 0 <= i < |a| ==> (a + b)[i] == a[i];
    assert forall i :: 0 <= i < |b| ==> (a + b)[|a| + i] == b[i];
  }

  lemma EncodeIsAscii(b: seq<Byte>)
    ensures IsAscii(Encode(b))
  {
    forall i | 0 <= i < |Encode(b)|
      ensures 0 < Encode(b)[i] as int < 128
    {
      ReadBack(Sextets(b)[i]);
      hide SextetOf, IsDigit64, SextetAt;
    }
  }

  lemma BinaryText(s: string, n: nat, salt: seq<Byte>, s2: string, out: seq<Byte>)
    requires n <= |s| && s[n..] == "$" + s2
    requires |Encode(salt)| == n && (s == Encode(salt) + s[n..] <==> IsAscii(s[..n]))
    requires s2 == Encode(out) <==> IsAscii(s2)
    ensures s == Encode(salt) + ("$" + Encode(out)) <==> IsAscii(s)
  {
    hide *;
    assert s == s[..n] + s[n..];
    AsciiParts(s[..n], s[n..]);
    AsciiParts("$", s2);
    DollarIsAscii();
    EncodeIsAscii(salt);
    EncodeIsAscii(out);
    if s == Encode(salt) + ("$" + Encode(out)) {
      assert s[..n] == Encode(salt) && s[n..] == "$" + Encode(out);
      assert ("$" + s2)[1..] == s2 && ("$" + Encode(out))[1..] == Encode(out);
    }
  }

  lemma DollarIsAscii()
    ensures IsAscii("$")
  {
  }

  /** Accepted binary fields are printed back exactly when they are ASCII. */
  lemma PrintedOfBinary(s: string, saltCap: nat, outCap: nat)
    requires IsText(s) && ParseBinary(s, saltCap, outCap).Some? && ParseBinary(s, saltCap, outCap).value.2 == ""
    ensures var (salt, out, _) := ParseBinary(s, saltCap, outCap).value;
            && |salt| <= saltCap && |out| <= outCap
            && (s == Encode(salt) + ("$" + Encode(out)) <==> IsAscii(s))
  {
    hide DecodeText, Encode, IsDigit64, RunLength, IsAscii;
    EncodeOfDecodeText(s, saltCap);
    var (salt, s1) := DecodeText(s, saltCap).value;
    var s2 := Expect(s1, "$").value;
    ExpectIff(s1, "$", s2);
    EncodeOfDecodeText(s2, outCap);
    var (out, s3) := DecodeText(s2, outCap).value;
    assert s3 == "" && s2[..|s2|] == s2 && Encode(out) + "" == Encode(out);
    BinaryText(s, RunLength(s), salt, s2, out);
  }

  lemma DigitsAreAscii(n: nat)
    ensures IsAscii(Digits(n))
  {
  }

  lemma PunctuationIsAscii(kind: Kind)
    ensures IsAscii("$") && IsAscii(",p=") && IsAscii(",t=") && IsAscii("$m=") && IsAscii("$v=")
    ensures IsAscii(TypeString(kind))
  {
  }

  lemma AsciiIsText(s: string)
    requires IsAscii(s)
    ensures IsText(s)
  {
  }

  /** The costs and everything before them are ASCII, so only the binary fields decide. */
  lemma CostsAscii(m: nat, t: nat, p: nat, rest: string)
    ensures IsAscii(Digits(m) + (",t=" + (Digits(t) + (",p=" + (Digits(p) + ("$" + rest)))))) <==> IsAscii(rest)
  {
    hide IsAscii, Digits;
    PunctuationIsAscii(Argon2d);
    DigitsAreAscii(m);
    DigitsAreAscii(t);
    DigitsAreAscii(p);
    AsciiParts("$", rest);
    AsciiParts(Digits(p), "$" + rest);
    var s2 := Digits(p) + ("$" + rest);
    AsciiParts(",p=", s2);
    AsciiParts(Digits(t), ",p=" + s2);
    var s1 := Digits(t) + (",p=" + s2);
    AsciiParts(",t=", s1);
    AsciiParts(Digits(m), ",t=" + s1);
  }

  lemma HeadAscii(kind: Kind, rest: string)
    ensures IsAscii("$" + (TypeString(kind) + rest)) <==> IsAscii(rest)
  {
    hide IsAscii, TypeString;
    PunctuationIsAscii(kind);
    AsciiParts(TypeString(kind), rest);
    AsciiParts("$", TypeString(kind) + rest);
  }

  lemma VersionAscii(v: nat, rest: string)
    ensures IsAscii("$v=" + (Digits(v) + ("$m=" + rest))) <==> IsAscii(rest)
    ensures IsAscii("$m=" + rest) <==> IsAscii(rest)
  {
    hide IsAscii, Digits;
    PunctuationIsAscii(Argon2d);
    DigitsAreAscii(v);
    AsciiParts("$m=", rest);
    AsciiParts(Digits(v), "$m=" + rest);
    AsciiParts("$v=", Digits(v) + ("$m=" + rest));
  }

  // ---- round trips -----------------------------------------------------------------------------

  /** Every printed text is read back. */
  lemma PrintThenParse(f: Fields, kind: Kind, saltCap: nat, outCap: nat, ulongMax: nat)
    requires ulongMax >= 0xFFFF_FFFF && |f.salt| <= saltCap && |f.out| <= outCap
    ensures IsAscii(Text(f, kind)) && IsText(Text(f, kind))
    ensures Parse(Text(f, kind), kind, saltCap, outCap, ulongMax) == Some((f, ""))
  {
    hide IsAscii, IsText, Digits, Encode, ParseHead, ParseVersion, ParseCosts, ParseBinary;
    EncodeIsAscii(f.salt);
    EncodeIsAscii(f.out);
    PunctuationIsAscii(kind);
    AsciiParts("$", Encode(f.out));
    AsciiParts(Encode(f.salt), "$" + Encode(f.out));
    CostsAscii(f.mCost, f.tCost, f.lanes, SaltText(f));
    VersionAscii(f.version, CostText(f, SaltText(f)));
    HeadAscii(kind, Body(f, SaltText(f)));
    AsciiIsText(Text(f, kind));
    HeadIff(Text(f, kind), kind, Body(f, SaltText(f)));
    VersionIff(Body(f, SaltText(f)), ulongMax, f.version, CostText(f, SaltText(f)));
    CostsIff(CostText(f, SaltText(f)), ulongMax, f.mCost, f.tCost, f.lanes, SaltText(f));
    BinaryOfPrinted(f.salt, f.out, saltCap, outCap);
  }

  /** The text carries an explicit version. */
  predicate HasVersion(s: string, kind: Kind) {
    "$" + (TypeString(kind) + "$v=") <= s
  }

  /** Every text accepted in full is the printed one if it has a version, and otherwise the printed one
      without its "$v=16" - as long as it is ASCII; no other accepted text is ever printed. */
  lemma ParseThenPrint(s: string, kind: Kind, saltCap: nat, outCap: nat, ulongMax: nat, f: Fields)
    requires ulongMax >= 0xFFFF_FFFF && IsText(s)
    requires Parse(s, kind, saltCap, outCap, ulongMax) == Some((f, ""))
    ensures |f.salt| <= saltCap && |f.out| <= outCap
    ensures s == Text(f, kind) <==> HasVersion(s, kind) && IsAscii(s)
    ensures !HasVersion(s, kind) ==> f.version == VERSION_10
    ensures !HasVersion(s, kind) ==>
      (s == "$" + (TypeString(kind) + ("$m=" + CostText(f, SaltText(f)))) <==> IsAscii(s))
  {
    hide IsAscii, IsText, Digits, Encode, ParseHead, ParseVersion, ParseCosts, ParseBinary, HasVersion;
    var s1 := ParseHead(s, kind).value;
    HeadIff(s, kind, s1);
    var (v, s2) := ParseVersion(s1, ulongMax).value;
    VersionIff(s1, ulongMax, v, s2);
    var (m, t, p, s3) := ParseCosts(s2, ulongMax).value;
    CostsIff(s2, ulongMax, m, t, p, s3);
    var (salt, out, rest) := ParseBinary(s3, saltCap, outCap).value;
    PrintedOfBinary(s3, saltCap, outCap);
    CostsAscii(m, t, p, s3);
    VersionAscii(v, s2);
    HeadAscii(kind, s1);
    assert IsAscii(s) <==> IsAscii(s3);
    assert s3 == SaltText(f) <==> IsAscii(s);
    SameAfter(f, s2, s3);
    VersionShown(kind, f, s, s1, s2);
  }

  /** Texts that agree up to the binary fields agree there as well. */
  lemma SameAfter(f: Fields, s2: string, s3: string)
    requires s2 == Digits(f.mCost) + (",t=" + (Digits(f.tCost) + (",p=" + (Digits(f.lanes) + ("$" + s3)))))
    ensures s2 == CostText(f, SaltText(f)) <==> s3 == SaltText(f)
  {
    hide Digits, SaltText;
    if s2 == CostText(f, SaltText(f)) {
      CostsIff(s2, 0xFFFF_FFFF, f.mCost, f.tCost, f.lanes, s3);
      CostsIff(s2, 0xFFFF_FFFF, f.mCost, f.tCost, f.lanes, SaltText(f));
    }
  }

  lemma VersionShown(kind: Kind, f: Fields, s: string, s1: string, s2: string)
    requires s == "$" + (TypeString(kind) + s1)
    requires s1 == "$v=" + (Digits(f.version) + ("$m=" + s2)) || (f.version == VERSION_10 && s1 == "$m=" + s2)
    ensures HasVersion(s, kind) <==> "$v=" <= s1
    ensures HasVersion(s, kind) <==> s1 == "$v=" + (Digits(f.version) + ("$m=" + s2))
    ensures s == Text(f, kind) <==> HasVersion(s, kind) && s2 == CostText(f, SaltText(f))
    ensures s == "$" + (TypeString(kind) + ("$m=" + CostText(f, SaltText(f))))
      <==> !HasVersion(s, kind) && s2 == CostText(f, SaltText(f))
  {
    hide Digits, CostText, TypeString;
    VersionPrefix(s, kind, s1);
    HeadIff(s, kind, s1);
    HeadIff(s, kind, Body(f, SaltText(f)));
    HeadIff(s, kind, "$m=" + CostText(f, SaltText(f)));
    assert ("$m=" + s2)[1] == 'm' && ("$m=" + CostText(f, SaltText(f)))[1] == 'm' && Body(f, SaltText(f))[1] == 'v';
    VersionIff(s1, 0xFFFF_FFFF, f.version, s2);
    VersionIff(s1, 0xFFFF_FFFF, f.version, CostText(f, SaltText(f)));
    ExpectIff("$m=" + s2, "$m=", s2);
    ExpectIff("$m=" + s2, "$m=", CostText(f, SaltText(f)));
  }

  lemma VersionPrefix(s: string, kind: Kind, s1: string)
    requires s == "$" + (TypeString(kind) + s1)
    ensures HasVersion(s, kind) <==> "$v=" <= s1
  {
    hide TypeString;
    var h := "$" + TypeString(kind);
    assert s == h + s1 && "$" + (TypeString(kind) + "$v=") == h + "$v=";
    if "$v=" <= s1 {
      assert s == h + "$v=" + s1[3..];
    }
    if HasVersion(s, kind) {
      assert s[..|h| + 3] == h + "$v=";
      assert s1[..3] == s[|h|..|h| + 3] == "$v=";
    }
  }

  // ---- decode_string and encode_string ---------------------------------------------------------

  /** The parameters decode_string recovers are those that were printed: version, costs, lanes, salt and
      output, with as many threads as lanes. It is accepted exactly when the caller's password is. */
  lemma DecodeOfEncode(ctx: Context, kind: Kind, pwd: Buffer, saltCap: nat, outCap: nat, ulongMax: nat)
    requires ValidateInputs(ctx).OK? && ulongMax >= 0xFFFF_FFFF
    requires ctx.salt.Len() <= saltCap && ctx.out.Len() <= outCap
    ensures ctx.salt.Data? && ctx.out.Data? && IsText(Text(FieldsOf(ctx), kind))
    ensures var back := ctx.(pwd := pwd, secret := Null(0), ad := Null(0), threads := ctx.lanes,
                             hasAllocate := false, hasFree := false);
            Decode(Text(FieldsOf(ctx), kind), kind, pwd, saltCap, outCap, ulongMax)
              == if pwd.Null? && pwd.Len() != 0 then Rejected(PwdPtrMismatch)
                 else if pwd.Len() > MAX_U32 then Rejected(PwdTooLong)
                 else Accepted(back)
  {
    hide Text, Parse, IsText;
    PrintThenParse(FieldsOf(ctx), kind, saltCap, outCap, ulongMax);
  }

  /** Printing what was decoded reproduces the string exactly when it is ASCII and shows its version. */
  lemma EncodeOfDecode(s: string, kind: Kind, pwd: Buffer, saltCap: nat, outCap: nat, ulongMax: nat)
    requires IsText(s) && ulongMax >= 0xFFFF_FFFF
    requires Decode(s, kind, pwd, saltCap, outCap, ulongMax).Accepted?
    ensures var ctx := Decode(s, kind, pwd, saltCap, outCap, ulongMax).ctx;
            && ValidateInputs(ctx).OK? && ctx.salt.Data? && ctx.out.Data? && ctx.threads == ctx.lanes
            && ctx.salt.Len() <= saltCap && ctx.out.Len() <= outCap
            && (s == Text(FieldsOf(ctx), kind) <==> HasVersion(s, kind) && IsAscii(s))
            && (!HasVersion(s, kind) ==> ctx.version == VERSION_10)
  {
    hide Text, Parse, IsText, HasVersion, IsAscii, ValidateInputs;
    var f := Parse(s, kind, saltCap, outCap, ulongMax).value.0;
    ParseThenPrint(s, kind, saltCap, outCap, ulongMax, f);
  }

  /** A '/' in a text may be replaced by any character above 127 without changing what is decoded. */
  lemma DecodeSlash(s: string, cap: nat, j: nat, c: char)
    requires IsText(s) && j < RunLength(s) && s[j] == '/' && 128 <= c as int < 256
    ensures IsText(s[j := c]) && DecodeText(s[j := c], cap) == DecodeText(s, cap)
  {
    hide CharValue, Canonical, DecodedByte, RunLength;
    CharValueIs(c);
    CharValueIs('/');
    var t, n := s[j := c], RunLength(s);
    RunLengthUnique(t, n);
    assert Values(t, n) == Values(s, n);
    assert t[n..] == s[n..];
  }

  lemma SlashInSalt(f: Fields, saltCap: nat, outCap: nat, j: nat, c: char)
    requires |f.salt| <= saltCap && |f.out| <= outCap
    requires j < |Encode(f.salt)| && Encode(f.salt)[j] == '/' && 128 <= c as int < 256
    ensures var tail := SaltText(f)[j := c];
            IsText(tail) && ParseBinary(tail, saltCap, outCap) == Some((f.salt, f.out, ""))
  {
    hide DecodeText, Encode, IsDigit64, RunLength;
    BinaryOfPrinted(f.salt, f.out, saltCap, outCap);
    EncodeIsAscii(f.out);
    DollarEnds(Encode(f.out));
    DecodeTextOfEncode(f.salt, "$" + Encode(f.out), saltCap);
    EncodeOfDecodeText(SaltText(f), saltCap);
    DecodeSlash(SaltText(f), saltCap, j, c);
  }

  /** Why EncodeOfDecode needs ASCII: wherever a printed salt shows '/', every character above 127 is accepted
      in its place and decodes to the same parameters, so the accepted text is not the printed one. */
  lemma OtherTextAccepted(f: Fields, kind: Kind, saltCap: nat, outCap: nat, ulongMax: nat, j: nat, c: char)
    requires ulongMax >= 0xFFFF_FFFF && |f.salt| <= saltCap && |f.out| <= outCap
    requires j < |Encode(f.salt)| && Encode(f.salt)[j] == '/' && 128 <= c as int < 256
    ensures var s := TextWith(f, kind, SaltText(f)[j := c]);
            && IsText(s) && s != Text(f, kind) && HasVersion(s, kind)
            && Parse(s, kind, saltCap, outCap, ulongMax) == Some((f, ""))
  {
    hide IsText, IsAscii, Digits, Encode, ParseHead, ParseVersion, ParseCosts, ParseBinary, HasVersion;
    var tail := SaltText(f)[j := c];
    SlashInSalt(f, saltCap, outCap, j, c);
    PrefixIsText(f, kind, tail);
    var s := TextWith(f, kind, tail);
    HeadIff(s, kind, Body(f, tail));
    VersionIff(Body(f, tail), ulongMax, f.version, CostText(f, tail));
    CostsIff(CostText(f, tail), ulongMax, f.mCost, f.tCost, f.lanes, tail);
    VersionPrefix(s, kind, Body(f, tail));
    HeadIff(s, kind, Body(f, SaltText(f)));
    VersionIff(Body(f, tail), ulongMax, f.version, CostText(f, SaltText(f)));
    SameAfter(f, CostText(f, tail), tail);
    assert tail[j] == c && SaltText(f)[j] == '/';
  }

  lemma TextAppend(a: string, b: string)
    requires IsAscii(a) && IsText(b)
    ensures IsText(a + b)
  {
  }

  lemma PrefixIsText(f: Fields, kind: Kind, tail: string)
    requires IsText(tail)
    ensures IsText(TextWith(f, kind, tail))
  {
    hide IsText, IsAscii, Digits, TypeString;
    PunctuationIsAscii(kind);
    DigitsAreAscii(f.mCost);
    DigitsAreAscii(f.tCost);
    DigitsAreAscii(f.lanes);
    DigitsAreAscii(f.version);
    var p := Digits(f.lanes) + ("$" + tail);
    TextAppend("$", tail);
    TextAppend(Digits(f.lanes), "$" + tail);
    TextAppend(",p=", p);
    TextAppend(Digits(f.tCost), ",p=" + p);
    var t := Digits(f.tCost) + (",p=" + p);
    TextAppend(",t=", t);
    TextAppend(Digits(f.mCost), ",t=" + t);
    var m := CostText(f, tail);
    TextAppend("$m=", m);
    TextAppend(Digits(f.version), "$m=" + m);
    TextAppend("$v=", Digits(f.version) + ("$m=" + m));
    TextAppend(TypeString(kind), Body(f, tail));
    TextAppend("$", TypeString(kind) + Body(f, tail));
  }

  /** A text with such a place: the first salt byte is 0xFF, shown as '/'. */
  function Shown(): Fields {
    Fields(VERSION_13, 8, 1, 1, [0xFF, 0, 0, 0, 0, 0, 0, 0], [0, 0, 0, 0])
  }

  lemma ShownSlash()
    ensures |Encode(Shown().salt)| > 0 && Encode(Shown().salt)[0] == '/' && |SaltText(Shown())| > 0
  {
    assert SextetAt(Shown().salt, 0) == 63;
  }

  lemma ShownIsValid()
    ensures ValidateInputs(DecodedContext(Shown(), Null(0))).OK? && |Shown().salt| == 8 && |Shown().out| == 4
  {
  }

  /** Two different texts, both with a version, that decode to the same parameters. */
  lemma SomeTextTwice(ulongMax: nat)
    requires ulongMax >= 0xFFFF_FFFF
    ensures |SaltText(Shown())| > 0
    ensures var s := TextWith(Shown(), Argon2id, SaltText(Shown())[0 := '\U{FF}']);
            && IsText(s) && HasVersion(s, Argon2id) && s != Text(Shown(), Argon2id)
            && Decode(s, Argon2id, Null(0), 8, 4, ulongMax) == Accepted(DecodedContext(Shown(), Null(0)))
  {
    hide Parse, TextWith, Text, IsText, HasVersion, Encode, SaltText, Shown, ValidateInputs, DecodedContext;
    ShownSlash();
    ShownIsValid();
    OtherTextAccepted(Shown(), Argon2id, 8, 4, ulongMax, 0, '\U{FF}');
  }
}
