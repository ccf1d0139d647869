/** The Argon2 parameter block, its validation and the memory layout derived from it. */
module Argon2Context {
  import opened Arithmetic
  import opened Words

  const VERSION_10: U32 := 0x10
  const VERSION_13: U32 := 0x13

  datatype Kind = Argon2d | Argon2i | Argon2id

  /** A pointer and its length: either NULL with a claimed length, or that many bytes. */
  datatype Buffer = Null(claimed: U32) | Data(bytes: seq<Byte>) {
    function Len(): int {
      match this
      case Null(n) => n
      case Data(b) => |b|
    }
  }

  datatype Context = Context(
    out: Buffer, pwd: Buffer, salt: Buffer, secret: Buffer, ad: Buffer,
    tCost: U32, mCost: U32, lanes: U32, threads: U32, version: U32,
    hasAllocate: bool, hasFree: bool)

  datatype Code =
    | OK
    | OutputPtrNull | OutputTooShort | OutputTooLong
    | PwdPtrMismatch | PwdTooLong
    | SaltPtrMismatch | SaltTooShort | SaltTooLong
    | SecretPtrMismatch | SecretTooLong
    | AdPtrMismatch | AdTooLong
    | MemoryTooLittle
    | TimeTooSmall
    | LanesTooFew | LanesTooMany
    | ThreadsTooFew | ThreadsTooMany
    | FreeCallbackNull | AllocateCallbackNull
    | IncorrectType
    | EncodingFail | DecodingFail

  const MAX_U32: int := 0xFFFF_FFFF
  const MAX_LANES: int := 0xFF_FFFF

  /** Checks run in the order of the C function; the product 8 * lanes wraps. */
  function ValidateInputs(ctx: Context): Code {
    if ctx.out.Null? then OutputPtrNull
    else if ctx.out.Len() < 4 then OutputTooShort
    else if ctx.out.Len() > MAX_U32 then OutputTooLong
    else if ctx.pwd.Null? && ctx.pwd.Len() != 0 then PwdPtrMismatch
    else if ctx.pwd.Len() > MAX_U32 then PwdTooLong
    else if ctx.salt.Null? && ctx.salt.Len() != 0 then SaltPtrMismatch
    else if ctx.salt.Len() < 8 then SaltTooShort
    else if ctx.salt.Len() > MAX_U32 then SaltTooLong
    else if ctx.secret.Null? && ctx.secret.Len() != 0 then SecretPtrMismatch
    else if ctx.secret.Len() > MAX_U32 then SecretTooLong
    else if ctx.ad.Null? && ctx.ad.Len() != 0 then AdPtrMismatch
    else if ctx.ad.Len() > MAX_U32 then AdTooLong
    else if ctx.mCost < 8 then MemoryTooLittle
    else if ctx.mCost < Wrap32(8 * ctx.lanes) then MemoryTooLittle
    else if ctx.tCost < 1 then TimeTooSmall
    else if ctx.lanes < 1 then LanesTooFew
    else if ctx.lanes > MAX_LANES then LanesTooMany
    else if ctx.threads < 1 then ThreadsTooFew
    else if ctx.threads > MAX_LANES then ThreadsTooMany
    else if ctx.hasAllocate && !ctx.hasFree then FreeCallbackNull
    else if !ctx.hasAllocate && ctx.hasFree then AllocateCallbackNull
    else OK
  }

  /** A buffer that may be absent, if it claims no length, and is no longer than 32 bits tell. */
  predicate Presentable(b: Buffer) {
    b.Len() <= 0xFFFF_FFFF && (b.Null? ==> b.claimed == 0)
  }

  /** Exactly these parameters are valid; for so few lanes the product 8 * lanes does not wrap. */
  lemma ValidExactly(ctx: Context)
    ensures ValidateInputs(ctx).OK? <==>
              && ctx.out.Data? && 4 <= |ctx.out.bytes| <= 0xFFFF_FFFF
              && ctx.salt.Data? && 8 <= |ctx.salt.bytes| <= 0xFFFF_FFFF
              && Presentable(ctx.pwd) && Presentable(ctx.secret) && Presentable(ctx.ad)
              && ctx.mCost >= 8 && ctx.mCost >= 8 * ctx.lanes && ctx.tCost >= 1
              && 1 <= ctx.lanes <= 0xFF_FFFF && 1 <= ctx.threads <= 0xFF_FFFF
              && ctx.hasAllocate == ctx.hasFree
  {
  }

  /** What is wrong with the parameters that a code is returned for. */
  lemma CodesTell(ctx: Context)
    ensures match ValidateInputs(ctx)
            case OutputPtrNull => ctx.out.Null?
            case OutputTooShort => ctx.out.Len() < 4
            case OutputTooLong => ctx.out.Len() > 0xFFFF_FFFF
            case PwdPtrMismatch => ctx.pwd.Null? && ctx.pwd.claimed > 0
            case PwdTooLong => ctx.pwd.Len() > 0xFFFF_FFFF
            case SaltPtrMismatch => ctx.salt.Null? && ctx.salt.claimed > 0
            case SaltTooShort => ctx.salt.Len() < 8
            case SaltTooLong => ctx.salt.Len() > 0xFFFF_FFFF
            case SecretPtrMismatch => ctx.secret.Null? && ctx.secret.claimed > 0
            case SecretTooLong => ctx.secret.Len() > 0xFFFF_FFFF
            case AdPtrMismatch => ctx.ad.Null? && ctx.ad.claimed > 0
            case AdTooLong => ctx.ad.Len() > 0xFFFF_FFFF
            case MemoryTooLittle => ctx.mCost < 8 || ctx.mCost < 8 * ctx.lanes % 0x1_0000_0000
            case TimeTooSmall => ctx.tCost == 0
            case LanesTooFew => ctx.lanes == 0
            case LanesTooMany => ctx.lanes > 0xFF_FFFF
            case ThreadsTooFew => ctx.threads == 0
            case ThreadsTooMany => ctx.threads > 0xFF_FFFF
            case FreeCallbackNull => ctx.hasAllocate && !ctx.hasFree
            case AllocateCallbackNull => ctx.hasFree && !ctx.hasAllocate
            case OK => true
            case _ => false
  {
  }

  datatype Instance = Instance(
    version: U32, passes: U32, memoryBlocks: U32, segmentLength: U32,
    laneLength: U32, lanes: U32, threads: U32, kind: Kind)

  /** The layout every later step relies on. */
  ghost predicate WellFormed(inst: Instance) {
    && 1 <= inst.threads <= inst.lanes
    && FourSegments(inst)
    && inst.memoryBlocks == inst.lanes * inst.laneLength
  }

  ghost predicate FourSegments(inst: Instance) {
    2 <= inst.segmentLength && inst.laneLength == 4 * inst.segmentLength
  }

  /** Memory alignment of argon2_ctx, in 32-bit arithmetic; there are four synchronization points. */
  function MakeInstance(ctx: Context, kind: Kind): Instance
    requires ValidateInputs(ctx).OK?
  {
    Layout(ctx.version, ctx.tCost, ctx.mCost, ctx.lanes, ctx.threads, kind)
  }

  function Layout(version: U32, tCost: U32, mCost: U32, lanes: U32, threads: U32, kind: Kind): Instance
    requires 0 < lanes <= MAX_LANES
  {
    var floor := Wrap32(8 * lanes);
    var blocks := if mCost < floor then floor else mCost;
    var perSegment := Wrap32(lanes * 4);
    assert perSegment == lanes * 4;
    var segment := Wrap32(blocks / perSegment);
    Instance(version, tCost, Wrap32(segment * perSegment), segment, Wrap32(segment * 4), lanes,
             if threads > lanes then lanes else threads, kind)
  }

  /** A validated context always yields a well-formed layout that uses as much of m_cost as whole segments allow. */
  lemma AlignmentIsWellFormed(ctx: Context, kind: Kind)
    requires ValidateInputs(ctx).OK?
    ensures WellFormed(MakeInstance(ctx, kind))
    ensures MakeInstance(ctx, kind).memoryBlocks <= ctx.mCost < MakeInstance(ctx, kind).memoryBlocks + 4 * ctx.lanes
    ensures var inst := MakeInstance(ctx, kind);
            && inst.version == ctx.version && inst.kind == kind && inst.passes == ctx.tCost && inst.lanes == ctx.lanes
            && inst.threads == (if ctx.threads < ctx.lanes then ctx.threads else ctx.lanes)
  {
    WholeSegments(ctx.mCost, ctx.lanes);
    LayoutFields(ctx.version, ctx.tCost, ctx.mCost, ctx.lanes, ctx.threads, kind);
  }

  lemma LayoutFields(version: U32, tCost: U32, mCost: U32, lanes: U32, threads: U32, kind: Kind)
    requires 1 <= lanes <= MAX_LANES && 8 * lanes <= mCost
    ensures var inst := Layout(version, tCost, mCost, lanes, threads, kind);
            var q := mCost / (lanes * 4);
            && inst.segmentLength == q && inst.laneLength == q * 4
            && inst.memoryBlocks == q * (lanes * 4)
            && inst.lanes == lanes && inst.threads == if threads > lanes then lanes else threads
  {
    WholeSegments(mCost, lanes);
    assert Wrap32(8 * lanes) == 8 * lanes && Wrap32(lanes * 4) == lanes * 4;
    var q := mCost / (lanes * 4);
    Fits(q);
    Fits(q * 4);
    Fits(q * (lanes * 4));
    hide Wrap32;
  }

  lemma Fits(x: nat)
    requires x < 0x1_0000_0000
    ensures Wrap32(x) == x
  {
  }

  /** m blocks hold q segments for each of 4 * lanes places. */
  lemma WholeSegments(m: nat, lanes: nat)
    requires 1 <= lanes && 8 * lanes <= m
    ensures var q := m / (lanes * 4);
            && 2 <= q <= m
            && q * 4 <= q * (lanes * 4) == lanes * (q * 4) <= m < q * (lanes * 4) + 4 * lanes
  {
    var d := lanes * 4;
    var q := m / d;
    assert m == q * d + m % d;
    if q < 2 {
      MulMono(d, q, 1);
    }
    MulMono(q, 4, d);
    assert q * (lanes * 4) == lanes * (q * 4);
  }
}
