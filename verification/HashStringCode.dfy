/** encode_string, decode_string and argon2_encodedlen as they run: writing through a moving pointer into a
    buffer of dst_len characters, and reading through a moving pointer into the caller's parameter block. */
module HashStringCode {
  import opened Wrappers
  import opened Words
  import opened Base64
  import opened Base64Stream
  import opened Base64Loops
  import opened Decimal
  import opened Argon2Context
  import opened HashString

  // ---- encode_string ---------------------------------------------------------------------------

  /** The first pos characters of the buffer are what precedes `rest` in the text. */
  ghost predicate Printed(now: string, pos: nat, text: string, rest: string) {
    pos <= |now| && now[..pos] + rest == text
  }

  ghost predicate SameFrom(before: string, now: string, from: nat) {
    |before| == |now| && forall i :: from <= i < |now| ==> now[i] == before[i]
  }

  lemma PrintMore(before: string, now: string, pos: nat, text: string, piece: string, rest: string)
    requires Printed(before, pos, text, piece + rest)
    requires pos + |piece| < |before| && now == before[..pos] + piece + ['\0'] + before[pos + |piece| + 1..]
    ensures Printed(now, pos + |piece|, text, rest) && SameFrom(before, now, pos + |piece| + 1)
    ensures now[pos + |piece|] == '\0'
  {
    assert now[..pos + |piece|] == before[..pos] + piece;
    assert before[..pos] + piece + rest == before[..pos] + (piece + rest);
  }

  lemma NoRoom(now: string, pos: nat, dstLen: nat, text: string, piece: string, rest: string)
    requires Printed(now, pos, text, piece + rest) && pos + |piece| >= dstLen
    ensures |text| >= dstLen
  {
  }

  /** What every SS, SX and SB leaves behind. */
  ghost predicate Progress(before: string, now: string, start: nat, dstLen: nat, text: string, rest: string,
                           next: Option<nat>) {
    match next
    case None => |text| >= dstLen && SameFrom(before, now, dstLen)
    case Some(pos) =>
      && start <= pos < dstLen <= |now| && Printed(now, pos, text, rest)
      && now[pos] == '\0' && SameFrom(before, now, pos + 1)
  }

  /** SS: append a string and a terminating zero if both fit into what is left. */
  method SS(dst: array<char>, pos: nat, dstLen: nat, str: string, ghost text: string, ghost rest: string)
    returns (next: Option<nat>)
    requires pos <= dstLen <= dst.Length && Printed(dst[..], pos, text, str + rest)
    modifies dst
    ensures Progress(old(dst[..]), dst[..], pos, dstLen, text, rest, next)
  {
    if |str| >= dstLen - pos {
      NoRoom(dst[..], pos, dstLen, text, str, rest);
      return None;
    }
    ghost var before := dst[..];
    forall i | 0 <= i < |str| {
      dst[pos + i] := str[i];
    }
    dst[pos + |str|] := '\0';
    assert dst[..] == before[..pos] + str + ['\0'] + before[pos + |str| + 1..];
    PrintMore(before, dst[..], pos, text, str, rest);
    return Some(pos + |str|);
  }

  /** SB: append Base64. */
  method SB(dst: array<char>, pos: nat, dstLen: nat, bytes: seq<Byte>, ghost text: string, ghost rest: string)
    returns (next: Option<nat>)
    requires pos <= dstLen <= dst.Length && Printed(dst[..], pos, text, Encode(bytes) + rest)
    modifies dst
    ensures Progress(old(dst[..]), dst[..], pos, dstLen, text, rest, next)
  {
    hide Encode;
    ghost var before := dst[..];
    var olen := ToBase64(dst, pos, dstLen - pos, bytes);
    if olen.None? {
      NoRoom(dst[..], pos, dstLen, text, Encode(bytes), rest);
      return None;
    }
    PrintMore(before, dst[..], pos, text, Encode(bytes), rest);
    return Some(pos + olen.value);
  }

  lemma Advance(before: string, mid: string, now: string, start: nat, pos: nat, dstLen: nat, text: string,
                rest: string, rest2: string, next: Option<nat>)
    requires Progress(before, mid, start, dstLen, text, rest, Some(pos))
    requires Progress(mid, now, pos, dstLen, text, rest2, next)
    ensures Progress(before, now, start, dstLen, text, rest2, next)
  {
  }

  lemma Here(before: string, mid: string, start: nat, dstLen: nat, text: string, rest: string, next: Option<nat>)
    requires Progress(before, mid, start, dstLen, text, rest, next)
    ensures next.Some? ==> next.value <= dstLen <= |mid| && Printed(mid, next.value, text, rest)
  {
  }

  lemma Failed(before: string, mid: string, start: nat, dstLen: nat, text: string, rest: string, rest2: string)
    requires Progress(before, mid, start, dstLen, text, rest, None)
    ensures Progress(before, mid, start, dstLen, text, rest2, None)
  {
  }

  /** SS of a label, then SX of a number. */
  method SSX(dst: array<char>, pos: nat, dstLen: nat, name: string, x: U32, ghost text: string, ghost rest: string)
    returns (next: Option<nat>)
    requires pos <= dstLen <= dst.Length && Printed(dst[..], pos, text, name + (Digits(x) + rest))
    modifies dst
    ensures Progress(old(dst[..]), dst[..], pos, dstLen, text, rest, next)
  {
    hide *;
    ghost var before, numbered := dst[..], Digits(x) + rest;
    var p1 := SS(dst, pos, dstLen, name, text, numbered);
    ghost var mid := dst[..];
    if p1.None? {
      Failed(before, mid, pos, dstLen, text, numbered, rest);
      return None;
    }
    Here(before, mid, pos, dstLen, text, numbered, p1);
    next := SS(dst, p1.value, dstLen, Digits(x), text, rest);
    Advance(before, mid, dst[..], pos, p1.value, dstLen, text, numbered, rest, next);
  }

  /** "$argon2<T>" */
  method Head(dst: array<char>, dstLen: nat, kind: Kind, ghost text: string, ghost rest: string)
    returns (next: Option<nat>)
    requires dstLen <= dst.Length && text == "$" + (TypeString(kind) + rest)
    modifies dst
    ensures Progress(old(dst[..]), dst[..], 0, dstLen, text, rest, next)
  {
    ghost var before, typed := dst[..], TypeString(kind) + rest;
    hide Progress, SameFrom, TypeString;
    var p1 := SS(dst, 0, dstLen, "$", text, typed);
    ghost var mid := dst[..];
    if p1.None? {
      Failed(before, mid, 0, dstLen, text, typed, rest);
      return None;
    }
    Here(before, mid, 0, dstLen, text, typed, p1);
    next := SS(dst, p1.value, dstLen, TypeString(kind), text, rest);
    Advance(before, mid, dst[..], 0, p1.value, dstLen, text, typed, rest, next);
  }

  /** The four numbers. */
  method Numbers(dst: array<char>, pos: nat, dstLen: nat, f: Fields, ghost text: string, ghost tail: string)
    returns (next: Option<nat>)
    requires pos <= dstLen <= dst.Length
    requires Printed(dst[..], pos, text, Body(f, tail))
    modifies dst
    ensures Progress(old(dst[..]), dst[..], pos, dstLen, text, "$" + tail, next)
  {
    ghost var r3 := ",p=" + (Digits(f.lanes) + ("$" + tail));
    ghost var r2 := ",t=" + (Digits(f.tCost) + r3);
    ghost var r1 := "$m=" + (Digits(f.mCost) + r2);
    assert Body(f, tail) == "$v=" + (Digits(f.version) + r1);
    hide *;
    ghost var before := dst[..];
    next := SSX(dst, pos, dstLen, "$v=", f.version, text, r1);
    ghost var m1 := dst[..];
    if next.None? {
      Failed(before, m1, pos, dstLen, text, r1, "$" + tail);
      return;
    }
    ghost var p := next.value;
    Here(before, m1, pos, dstLen, text, r1, next);
    next := SSX(dst, next.value, dstLen, "$m=", f.mCost, text, r2);
    ghost var m2 := dst[..];
    Advance(before, m1, m2, pos, p, dstLen, text, r1, r2, next);
    if next.None? {
      Failed(before, m2, pos, dstLen, text, r2, "$" + tail);
      return;
    }
    p := next.value;
    Here(before, m2, pos, dstLen, text, r2, next);
    next := SSX(dst, next.value, dstLen, ",t=", f.tCost, text, r3);
    ghost var m3 := dst[..];
    Advance(before, m2, m3, pos, p, dstLen, text, r2, r3, next);
    if next.None? {
      Failed(before, m3, pos, dstLen, text, r3, "$" + tail);
      return;
    }
    p := next.value;
    Here(before, m3, pos, dstLen, text, r3, next);
    next := SSX(dst, next.value, dstLen, ",p=", f.lanes, text, "$" + tail);
    Advance(before, m3, dst[..], pos, p, dstLen, text, r3, "$" + tail, next);
  }

  /** "$" and one binary field. */
  method Binary(dst: array<char>, pos: nat, dstLen: nat, bytes: seq<Byte>, ghost text: string, ghost rest: string)
    returns (next: Option<nat>)
    requires pos <= dstLen <= dst.Length && Printed(dst[..], pos, text, "$" + (Encode(bytes) + rest))
    modifies dst
    ensures Progress(old(dst[..]), dst[..], pos, dstLen, text, rest, next)
  {
    hide *;
    ghost var before, coded := dst[..], Encode(bytes) + rest;
    next := SS(dst, pos, dstLen, "$", text, coded);
    ghost var mid := dst[..];
    if next.None? {
      Failed(before, mid, pos, dstLen, text, coded, rest);
      return;
    }
    ghost var p := next.value;
    Here(before, mid, pos, dstLen, text, coded, next);
    next := SB(dst, next.value, dstLen, bytes, text, rest);
    Advance(before, mid, dst[..], pos, p, dstLen, text, coded, rest, next);
  }

  /** encode_string: for a valid context it succeeds exactly when the text and its terminating zero fit, writes
      exactly them, and never touches anything beyond dst_len. No kind stands for an argon2_type outside the
      enumeration. */
  method EncodeString(dst: array<char>, dstLen: nat, ctx: Context, kind: Option<Kind>) returns (code: Code)
    requires dstLen <= dst.Length
    modifies dst
    ensures kind.None? ==> code == EncodingFail && dst[..] == old(dst[..])
    ensures kind.Some? && !ValidateInputs(ctx).OK? ==> code == ValidateInputs(ctx) && dst[..] == old(dst[..])
    ensures kind.Some? && ValidateInputs(ctx).OK? ==>
      && ctx.salt.Data? && ctx.out.Data?
      && var text := Text(FieldsOf(ctx), kind.value);
         && code == (if |text| < dstLen then OK else EncodingFail)
         && (code.OK? ==> dst[..] == text + ['\0'] + old(dst[|text| + 1..]))
    ensures dst[dstLen..] == old(dst[dstLen..])
  {
    var validation := ValidateInputs(ctx);
    if kind.None? {
      return EncodingFail;
    }
    if !validation.OK? {
      return validation;
    }
    var f := FieldsOf(ctx);
    ghost var text, before := Text(f, kind.value), dst[..];
    hide *;
    var done := WriteFields(dst, dstLen, f, kind.value, text);
    Finished(before, dst[..], dstLen, text, done);
    return if done.Some? then OK else EncodingFail;
  }

  /** The pieces of the text, one after another. */
  method WriteFields(dst: array<char>, dstLen: nat, f: Fields, kind: Kind, ghost text: string)
    returns (next: Option<nat>)
    requires dstLen <= dst.Length && text == Text(f, kind)
    modifies dst
    ensures Progress(old(dst[..]), dst[..], 0, dstLen, text, "", next)
  {
    ghost var last := "$" + (Encode(f.out) + "");
    ghost var tail := SaltText(f);
    ghost var body := Body(f, tail);
    assert Encode(f.out) + "" == Encode(f.out);
    assert tail == Encode(f.salt) + last;
    hide *;
    ghost var before := dst[..];
    next := Head(dst, dstLen, kind, text, body);
    ghost var m1 := dst[..];
    if next.None? {
      Failed(before, m1, 0, dstLen, text, body, "");
      return;
    }
    ghost var p := next.value;
    Here(before, m1, 0, dstLen, text, body, next);
    next := Numbers(dst, next.value, dstLen, f, text, tail);
    ghost var m2 := dst[..];
    Advance(before, m1, m2, 0, p, dstLen, text, body, "$" + tail, next);
    if next.None? {
      Failed(before, m2, 0, dstLen, text, "$" + tail, "");
      return;
    }
    p := next.value;
    Here(before, m2, 0, dstLen, text, "$" + tail, next);
    next := Binary(dst, next.value, dstLen, f.salt, text, last);
    ghost var m3 := dst[..];
    Advance(before, m2, m3, 0, p, dstLen, text, "$" + tail, last, next);
    if next.None? {
      Failed(before, m3, 0, dstLen, text, last, "");
      return;
    }
    p := next.value;
    Here(before, m3, 0, dstLen, text, last, next);
    next := Binary(dst, next.value, dstLen, f.out, text, "");
    Advance(before, m3, dst[..], 0, p, dstLen, text, last, "", next);
  }

  lemma Finished(before: string, now: string, dstLen: nat, text: string, next: Option<nat>)
    requires dstLen <= |before| && Progress(before, now, 0, dstLen, text, "", next)
    ensures |now| == |before| && now[dstLen..] == before[dstLen..]
    ensures next.Some? <==> |text| < dstLen
    ensures next.Some? ==> now == text + ['\0'] + before[|text| + 1..]
  {
    if next.Some? {
      assert now[..next.value] == text;
      assert now == now[..next.value] + [now[next.value]] + now[next.value + 1..];
    }
  }

  // ---- argon2_encodedlen -----------------------------------------------------------------------

  function EncodedLenOf(tCost: U32, mCost: U32, lanes: U32, saltLen: U32, outLen: U32, kind: Kind): nat {
    |"$$v=$m=,t=,p=$$"| + |TypeString(kind)| + |Digits(tCost)| + |Digits(mCost)| + |Digits(lanes)|
      + EncodedLength(saltLen) + EncodedLength(outLen) + |Digits(VERSION_13)| + 1
  }

  /** argon2_encodedlen, with numlen and b64len run. */
  method EncodedLen(tCost: U32, mCost: U32, parallelism: U32, saltLen: U32, hashLen: U32, kind: Kind)
    returns (size: nat)
    ensures size == EncodedLenOf(tCost, mCost, parallelism, saltLen, hashLen, kind)
  {
    hide Digits, TypeString, EncodedLength;
    var t := NumLen(tCost);
    var m := NumLen(mCost);
    var p := NumLen(parallelism);
    var s := B64Len(saltLen);
    var h := B64Len(hashLen);
    var v := NumLen(VERSION_13);
    size := |"$$v=$m=,t=,p=$$"| + |TypeString(kind)| + t + m + p + s + h + v + 1;
  }

  lemma TwoDigits(v: nat)
    ensures |Digits(v)| == 2 <==> 10 <= v <= 99
  {
    if v >= 10 {
      assert |Digits(v)| == |Digits(v / 10)| + 1;
    }
  }

  /** The announced length is that of the text and its terminating zero exactly for two-digit versions. */
  lemma EncodedLenIsExact(ctx: Context, kind: Kind)
    requires ValidateInputs(ctx).OK?
    ensures ctx.salt.Data? && ctx.out.Data?
    ensures |Text(FieldsOf(ctx), kind)| + 1
      == EncodedLenOf(ctx.tCost, ctx.mCost, ctx.lanes, ctx.salt.Len(), ctx.out.Len(), kind)
      <==> 10 <= ctx.version <= 99
  {
    TwoDigits(ctx.version);
    TwoDigits(VERSION_13);
    hide Digits, TypeString, Encode;
  }

  /** The other versions are accepted too: with one digit the announced length is one too many, with three it is one
      too few, so that encode_string fails on a buffer of just that length. */
  lemma AnnouncedLengthMisses(ctx: Context, kind: Kind)
    requires ValidateInputs(ctx).OK?
    ensures ctx.salt.Data? && ctx.out.Data?
    ensures var size := EncodedLenOf(ctx.tCost, ctx.mCost, ctx.lanes, ctx.salt.Len(), ctx.out.Len(), kind);
            var short, long := ctx.(version := 1), ctx.(version := 256);
            && ValidateInputs(short).OK? && |Text(FieldsOf(short), kind)| + 1 == size - 1
            && ValidateInputs(long).OK? && |Text(FieldsOf(long), kind)| + 1 == size + 1
  {
    TwoDigits(VERSION_13);
    assert |Digits(1)| == 1;
    assert |Digits(256)| == 3 by {
      TwoDigits(25);
    }
    hide Digits, TypeString, Encode;
  }

  /** So for both published versions encode_string succeeds exactly when the buffer has the announced length. */
  lemma AnnouncedLengthSuffices(ctx: Context, kind: Kind, dstLen: nat)
    requires ValidateInputs(ctx).OK? && (ctx.version == VERSION_10 || ctx.version == VERSION_13)
    ensures ctx.salt.Data? && ctx.out.Data?
    ensures |Text(FieldsOf(ctx), kind)| < dstLen
      <==> EncodedLenOf(ctx.tCost, ctx.mCost, ctx.lanes, ctx.salt.Len(), ctx.out.Len(), kind) <= dstLen
  {
    EncodedLenIsExact(ctx, kind);
    hide Text, EncodedLenOf;
  }

  // ---- decode_string ---------------------------------------------------------------------------

  /** argon2_context as the caller's structure: decode_string reads the capacities from the two length fields
      and overwrites every field but the password. */
  class ParameterBlock {
    var out: array<Byte>
    var outLen: U32
    var salt: array<Byte>
    var saltLen: U32
    var pwd: Buffer
    var secret: Buffer
    var ad: Buffer
    var tCost: U32
    var mCost: U32
    var lanes: U32
    var threads: U32
    var version: U32
    var hasAllocate: bool
    var hasFree: bool

    ghost predicate Valid()
      reads this
    {
      outLen <= out.Length && saltLen <= salt.Length && out != salt
    }

    function View(): Context
      requires outLen <= out.Length && saltLen <= salt.Length
      reads this, out, salt
    {
      Context(Data(out[..outLen]), pwd, Data(salt[..saltLen]), secret, ad, tCost, mCost, lanes, threads, version,
              hasAllocate, hasFree)
    }

    method ReadU32(str: string, ulongMax: nat) returns (r: Option<(U32, string)>)
      ensures r == ParseU32(str, ulongMax)
    {
      var d := DecodeDecimal(str, ulongMax);
      if d.None? || d.value.0 > 0xFFFF_FFFF {
        return None;
      }
      return Some(d.value);
    }

    /** A number field and the text required after it. */
    method ReadNumberThen(str: string, ulongMax: nat, after: string) returns (r: Option<(U32, string)>)
      ensures r == ParseNumberThen(str, ulongMax, after)
    {
      var d := ReadU32(str, ulongMax);
      if d.None? {
        return None;
      }
      if !(after <= d.value.1) {
        return None;
      }
      return Some((d.value.0, d.value.1[|after|..]));
    }

    /** The version, costs and lanes. */
    method ReadNumbers(str: string, ulongMax: nat) returns (rest: Option<string>)
      modifies this`version, this`mCost, this`tCost, this`lanes, this`threads
      ensures rest.Some?
        <==> ParseVersion(str, ulongMax).Some? && ParseCosts(ParseVersion(str, ulongMax).value.1, ulongMax).Some?
      ensures rest.Some? ==>
        && version == ParseVersion(str, ulongMax).value.0
        && ParseCosts(ParseVersion(str, ulongMax).value.1, ulongMax).value == (mCost, tCost, lanes, rest.value)
        && threads == lanes
    {
      hide ParseNumberThen;
      var s := str;
      version := VERSION_10;
      if "$v=" <= s {
        var v := ReadNumberThen(s[3..], ulongMax, "$m=");
        if v.None? {
          return None;
        }
        version := v.value.0;
        s := v.value.1;
      } else {
        if !("$m=" <= s) {
          return None;
        }
        s := s[3..];
      }
      var m := ReadNumberThen(s, ulongMax, ",t=");
      if m.None? {
        return None;
      }
      mCost := m.value.0;
      var t := ReadNumberThen(m.value.1, ulongMax, ",p=");
      if t.None? {
        return None;
      }
      tCost := t.value.0;
      var p := ReadNumberThen(t.value.1, ulongMax, "$");
      if p.None? {
        return None;
      }
      lanes := p.value.0;
      threads := lanes;
      return Some(p.value.1);
    }

    /** The salt and the output. */
    method ReadBinary(str: string, maxSaltLen: U32, maxOutLen: U32) returns (rest: Option<string>)
      requires IsText(str) && Valid() && maxSaltLen <= salt.Length && maxOutLen <= out.Length
      modifies this`saltLen, this`outLen, salt, out
      ensures rest.Some? <==> ParseBinary(str, maxSaltLen, maxOutLen).Some?
      ensures (saltLen == old(saltLen) || saltLen <= maxSaltLen) && (outLen == old(outLen) || outLen <= maxOutLen)
      ensures rest.Some? ==>
        && ParseBinary(str, maxSaltLen, maxOutLen).value == (salt[..saltLen], out[..outLen], rest.value)
      ensures salt[maxSaltLen..] == old(salt[maxSaltLen..]) && out[maxOutLen..] == old(out[maxOutLen..])
    {
      hide DecodeText, RunLength, IsDigit64, Encode;
      var s := FromBase64(salt, maxSaltLen, str);
      if s.None? {
        return None;
      }
      EncodeOfDecodeText(str, maxSaltLen);
      saltLen := s.value.0;
      assert salt[..saltLen] == DecodeText(str, maxSaltLen).value.0;
      if !("$" <= s.value.1) {
        return None;
      }
      var o := FromBase64(out, maxOutLen, s.value.1[1..]);
      if o.None? {
        return None;
      }
      outLen := o.value.0;
      assert out[..outLen] == DecodeText(s.value.1[1..], maxOutLen).value.0;
      return Some(o.value.1);
    }

    method ReadHead(str: string, kind: Kind) returns (rest: Option<string>)
      ensures rest == ParseHead(str, kind)
    {
      if !("$" <= str) {
        return None;
      }
      var s := str[1..];
      if !(TypeString(kind) <= s) {
        return None;
      }
      return Some(s[|TypeString(kind)|..]);
    }

    /** Everything up to the defaults. */
    method ReadFields(str: string, kind: Kind, maxSaltLen: U32, maxOutLen: U32, ulongMax: nat)
      returns (rest: Option<string>)
      requires IsText(str) && Valid() && maxSaltLen <= salt.Length && maxOutLen <= out.Length
      modifies this`version, this`mCost, this`tCost, this`lanes, this`threads, this`saltLen, this`outLen, salt, out
      ensures rest.Some? <==> Parse(str, kind, maxSaltLen, maxOutLen, ulongMax).Some?
      ensures (saltLen == old(saltLen) || saltLen <= maxSaltLen) && (outLen == old(outLen) || outLen <= maxOutLen)
      ensures ParseHead(str, kind).None? ==> unchanged(this, salt, out)
      ensures rest.Some? ==>
        && threads == lanes
        && Parse(str, kind, maxSaltLen, maxOutLen, ulongMax).value
           == (Fields(version, mCost, tCost, lanes, salt[..saltLen], out[..outLen]), rest.value)
      ensures salt[maxSaltLen..] == old(salt[maxSaltLen..]) && out[maxOutLen..] == old(out[maxOutLen..])
    {
      hide ParseVersion, ParseCosts, ParseBinary, ParseHead, TypeString, IsText;
      var head := ReadHead(str, kind);
      if head.None? {
        return None;
      }
      var s3 := ReadNumbers(head.value, ulongMax);
      if s3.None? {
        return None;
      }
      rest := ReadBinary(s3.value, maxSaltLen, maxOutLen);
    }

    /** decode_string: accepted exactly when Decode accepts. The block then holds exactly what it says, and so it does
        when the whole string was parsed and rejected after all; no byte beyond the caller's two buffers is written,
        and the lengths never exceed their capacities. */
    method DecodeString(str: string, kind: Option<Kind>, ulongMax: nat) returns (code: Code)
      requires IsText(str) && Valid()
      modifies this, salt, out
      ensures salt == old(salt) && out == old(out) && pwd == old(pwd)
      ensures Valid() && saltLen <= old(saltLen) && outLen <= old(outLen)
      ensures salt[old(saltLen)..] == old(salt[saltLen..]) && out[old(outLen)..] == old(out[outLen..])
      ensures kind.None? ==> code == IncorrectType && unchanged(this, salt, out)
      ensures kind.Some? ==>
              var d := Decode(str, kind.value, old(pwd), old(saltLen), old(outLen), ulongMax);
              && code == (if d.Accepted? then OK else d.code)
              && (code.OK? ==> View() == d.ctx)
      ensures kind.Some? ==>
              match Parse(str, kind.value, old(saltLen), old(outLen), ulongMax)
              case Some((f, _)) => View() == DecodedContext(f, old(pwd))
              case None =>
                && secret == old(secret) && ad == old(ad) && hasAllocate == old(hasAllocate) && hasFree == old(hasFree)
                && (ParseHead(str, kind.value).None? ==> unchanged(this, salt, out))
    {
      hide Parse, ValidateInputs, IsText;
      if kind.None? {
        return IncorrectType;
      }
      var rest := ReadFields(str, kind.value, saltLen, outLen, ulongMax);
      if rest.None? {
        return DecodingFail;
      }
      secret := Null(0);
      ad := Null(0);
      hasAllocate := false;
      hasFree := false;
      var validation := ValidateInputs(View());
      if !validation.OK? {
        return validation;
      }
      return if rest.value == "" then OK else DecodingFail;
    }
  }
}
