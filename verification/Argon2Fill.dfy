/** Filling the block array: fill_first_blocks, fill_segment and the single-threaded driver, each
    proved against a specification that writes one block at a time. */
module Argon2Fill {
  import opened Arithmetic
  import opened Words
  import opened Argon2Context
  import opened Argon2Index

  /** 128 words of 64 bits. */
  type Block = b: seq<U64> | |b| == 128 witness Zeros(128)

  function Zeros(n: nat): (s: seq<U64>)
    ensures |s| == n && forall i :: 0 <= i < n ==> s[i] == 0
  {
    seq(n, _ => 0)
  }

  const ZERO: Block := Zeros(128)

  /** The cryptographic parts, left uninterpreted: the Blake2 permutation of a block, the block XOR,
      H' applied to H0 || column || lane, and the tag computed from the final block. */
  datatype Primitives = Primitives(
    permute: Block -> Block,
    xor: (Block, Block) -> Block,
    firstBlock: (U32, U32) -> Block,
    tag: Block -> seq<Byte>)

  datatype Position = Position(pass: U32, slice: nat, lane: U32)

  ghost predicate ValidPosition(inst: Instance, pos: Position) {
    WellFormed(inst) && pos.slice < 4 && pos.lane < inst.lanes
  }

  /** Block index of a column of a lane. */
  function Offset(inst: Instance, lane: nat, col: nat): nat {
    lane * inst.laneLength + col
  }

  lemma OffsetRoundTrip(inst: Instance, lane: nat, col: nat)
    requires WellFormed(inst) && lane < inst.lanes && col < inst.laneLength
    ensures Offset(inst, lane, col) < inst.memoryBlocks
    ensures Offset(inst, lane, col) / inst.laneLength == lane
    ensures Offset(inst, lane, col) % inst.laneLength == col
  {
    var n := inst.laneLength;
    assert (lane + 1) * n <= inst.lanes * n by {
      MulMono(n, lane + 1, inst.lanes);
    }
    Divide(lane * n + col, n, lane, col);
  }

  /** fill_block: R = ref XOR prev; the permuted R is XORed into R, or into R XOR the old block. */
  function FillBlock(p: Primitives, prev: Block, ref: Block, next: Block, withXor: bool): Block {
    var r := p.xor(ref, prev);
    p.xor(if withXor then p.xor(r, next) else r, p.permute(r))
  }

  function KindCode(kind: Kind): U64 {
    match kind
    case Argon2d => 0
    case Argon2i => 1
    case Argon2id => 2
  }

  /** Section 3.4.1.2 of RFC 9106: the input block with the given counter. */
  function InputBlock(inst: Instance, pos: Position, counter: U64): Block
    requires pos.slice < 4
  {
    [pos.pass, pos.lane, pos.slice, inst.memoryBlocks, inst.passes, KindCode(inst.kind), counter] + Zeros(121)
  }

  function AddressBlock(p: Primitives, input: Block): Block {
    FillBlock(p, ZERO, FillBlock(p, ZERO, input, ZERO, false), ZERO, false)
  }

  function DataIndependent(inst: Instance, pos: Position): bool {
    inst.kind == Argon2i || (inst.kind == Argon2id && pos.pass == 0 && pos.slice < 2)
  }

  /** Pass 0 starts with two given blocks per lane. */
  function StartIndex(pos: Position): nat {
    if pos.pass == 0 && pos.slice == 0 then 2 else 0
  }

  function Column(inst: Instance, pos: Position, index: nat): nat {
    SegmentStart(inst, pos.slice) + index
  }

  lemma ColumnInLane(inst: Instance, pos: Position, index: nat)
    requires FourSegments(inst) && pos.slice < 4 && index < inst.segmentLength
    ensures Column(inst, pos, index) < inst.laneLength
  {
  }

  function CurrOffset(inst: Instance, pos: Position, index: nat): (o: nat)
    requires ValidPosition(inst, pos) && index < inst.segmentLength
    ensures o < inst.memoryBlocks
  {
    ColumnInLane(inst, pos, index);
    OffsetRoundTrip(inst, pos.lane, Column(inst, pos, index));
    Offset(inst, pos.lane, Column(inst, pos, index))
  }

  /** The cyclic predecessor in the lane. */
  function PrevColumn(inst: Instance, pos: Position, index: nat): nat
    requires FourSegments(inst)
  {
    var col := Column(inst, pos, index);
    if col == 0 then inst.laneLength - 1 else col - 1
  }

  function PrevOffset(inst: Instance, pos: Position, index: nat): (o: nat)
    requires ValidPosition(inst, pos) && index < inst.segmentLength
    ensures o < inst.memoryBlocks
  {
    ColumnInLane(inst, pos, index);
    OffsetRoundTrip(inst, pos.lane, PrevColumn(inst, pos, index));
    Offset(inst, pos.lane, PrevColumn(inst, pos, index))
  }

  /** J1 || J2 of section 3.4.1: word index mod 128 of the address block with counter index/128 + 1,
      or the first word of the previous block. */
  function PseudoRand(inst: Instance, p: Primitives, mem: seq<Block>, pos: Position, index: nat): U64
    requires ValidPosition(inst, pos) && |mem| == inst.memoryBlocks && index < inst.segmentLength
  {
    if DataIndependent(inst, pos) then
      AddressBlock(p, InputBlock(inst, pos, index / 128 + 1))[index % 128]
    else
      mem[PrevOffset(inst, pos, index)][0]
  }

  function RefLane(inst: Instance, pos: Position, pseudoRand: U64): U32
    requires ValidPosition(inst, pos)
  {
    if pos.pass == 0 && pos.slice == 0 then pos.lane else High32(pseudoRand) % inst.lanes
  }

  function RefColumn(inst: Instance, pos: Position, index: nat, pseudoRand: U64): (col: nat)
    requires ValidPosition(inst, pos) && StartIndex(pos) <= index < inst.segmentLength
    ensures col < inst.laneLength
  {
    var sameLane := RefLane(inst, pos, pseudoRand) == pos.lane;
    ReferenceIsSafe(inst, pos.pass, pos.slice, index, Wrap32(pseudoRand), sameLane);
    IndexAlpha(inst, pos.pass, pos.slice, index, Wrap32(pseudoRand), sameLane)
  }

  function RefOffset(inst: Instance, pos: Position, index: nat, pseudoRand: U64): (o: nat)
    requires ValidPosition(inst, pos) && StartIndex(pos) <= index < inst.segmentLength
    ensures o < inst.memoryBlocks
  {
    OffsetRoundTrip(inst, RefLane(inst, pos, pseudoRand), RefColumn(inst, pos, index, pseudoRand));
    Offset(inst, RefLane(inst, pos, pseudoRand), RefColumn(inst, pos, index, pseudoRand))
  }

  /** From version 0x13 on, later passes XOR over the old block. */
  function WithXor(inst: Instance, pos: Position): bool {
    inst.version != VERSION_10 && pos.pass != 0
  }

  function NewBlock(inst: Instance, p: Primitives, mem: seq<Block>, pos: Position, index: nat): Block
    requires ValidPosition(inst, pos) && |mem| == inst.memoryBlocks
    requires StartIndex(pos) <= index < inst.segmentLength
  {
    FillBlock(p, mem[PrevOffset(inst, pos, index)],
              mem[RefOffset(inst, pos, index, PseudoRand(inst, p, mem, pos, index))],
              mem[CurrOffset(inst, pos, index)], WithXor(inst, pos))
  }

  /** One atomic step of a lane: read three blocks, write one. */
  function WriteBlock(inst: Instance, p: Primitives, mem: seq<Block>, pos: Position, index: nat): (r: seq<Block>)
    requires ValidPosition(inst, pos) && |mem| == inst.memoryBlocks
    requires StartIndex(pos) <= index < inst.segmentLength
    ensures |r| == |mem|
  {
    mem[CurrOffset(inst, pos, index) := NewBlock(inst, p, mem, pos, index)]
  }

  /** Memory after the blocks before index of one segment are written. */
  function SegmentUpTo(inst: Instance, p: Primitives, mem: seq<Block>, pos: Position, index: nat): (r: seq<Block>)
    requires ValidPosition(inst, pos) && |mem| == inst.memoryBlocks && index <= inst.segmentLength
    ensures |r| == |mem|
  {
    if index <= StartIndex(pos) then mem
    else WriteBlock(inst, p, SegmentUpTo(inst, p, mem, pos, index - 1), pos, index - 1)
  }

  function SliceUpTo(inst: Instance, p: Primitives, mem: seq<Block>, pass: U32, slice: nat, lanes: nat): (r: seq<Block>)
    requires WellFormed(inst) && |mem| == inst.memoryBlocks && slice < 4 && lanes <= inst.lanes
    ensures |r| == |mem|
  {
    if lanes == 0 then mem
    else SegmentUpTo(inst, p, SliceUpTo(inst, p, mem, pass, slice, lanes - 1),
                     Position(pass, slice, lanes - 1), inst.segmentLength)
  }

  function PassUpTo(inst: Instance, p: Primitives, mem: seq<Block>, pass: U32, slices: nat): (r: seq<Block>)
    requires WellFormed(inst) && |mem| == inst.memoryBlocks && slices <= 4
    ensures |r| == |mem|
  {
    if slices == 0 then mem
    else SliceUpTo(inst, p, PassUpTo(inst, p, mem, pass, slices - 1), pass, slices - 1, inst.lanes)
  }

  /** Memory after the given number of passes, one lane after the other. */
  function FillUpTo(inst: Instance, p: Primitives, mem: seq<Block>, passes: U32): (r: seq<Block>)
    requires WellFormed(inst) && |mem| == inst.memoryBlocks
    ensures |r| == |mem|
    decreases passes
  {
    if passes == 0 then mem
    else PassUpTo(inst, p, FillUpTo(inst, p, mem, passes - 1), passes - 1, 4)
  }

  function FirstBlocksUpTo(inst: Instance, p: Primitives, mem: seq<Block>, lanes: nat): (r: seq<Block>)
    requires WellFormed(inst) && |mem| == inst.memoryBlocks && lanes <= inst.lanes
    ensures |r| == |mem|
  {
    if lanes == 0 then mem
    else
      OffsetRoundTrip(inst, lanes - 1, 0);
      OffsetRoundTrip(inst, lanes - 1, 1);
      FirstBlocksUpTo(inst, p, mem, lanes - 1)
        [Offset(inst, lanes - 1, 0) := p.firstBlock(0, lanes - 1)]
        [Offset(inst, lanes - 1, 1) := p.firstBlock(1, lanes - 1)]
  }

  method FillFirstBlocks(inst: Instance, p: Primitives, memory: array<Block>)
    requires WellFormed(inst) && memory.Length == inst.memoryBlocks
    modifies memory
    ensures memory[..] == FirstBlocksUpTo(inst, p, old(memory[..]), inst.lanes)
  {
    var l: U32 := 0;
    while l < inst.lanes
      invariant 0 <= l <= inst.lanes
      invariant memory[..] == FirstBlocksUpTo(inst, p, old(memory[..]), l)
    {
      StoreFirst(inst, memory, l, 0, p.firstBlock(0, l));
      StoreFirst(inst, memory, l, 1, p.firstBlock(1, l));
      l := l + 1;
    }
  }

  method StoreFirst(inst: Instance, memory: array<Block>, l: U32, col: U32, b: Block)
    requires WellFormed(inst) && memory.Length == inst.memoryBlocks && l < inst.lanes && col < 2
    modifies memory
    ensures Offset(inst, l, col) < memory.Length
    ensures memory[..] == old(memory[..])[Offset(inst, l, col) := b]
  {
    OffsetRoundTrip(inst, l, col);
    memory[Wrap32(l * inst.laneLength + col)] := b;
  }

  method NextAddresses(p: Primitives, inputBlock: Block) returns (addressBlock: Block, nextInput: Block)
    ensures nextInput == inputBlock[6 := Wrap64(inputBlock[6] as int + 1)]
    ensures addressBlock == AddressBlock(p, nextInput)
  {
    nextInput := inputBlock[6 := Wrap64(inputBlock[6] as int + 1)];
    addressBlock := FillBlock(p, ZERO, nextInput, ZERO, false);
    addressBlock := FillBlock(p, ZERO, addressBlock, ZERO, false);
  }

  /** Address blocks generated before the check of iteration i. */
  function Generated(i: nat): nat {
    (i + 127) / 128
  }

  lemma CounterStep(inst: Instance, pos: Position, counter: U64)
    requires pos.slice < 4 && counter < 0xFFFF_FFFF
    ensures InputBlock(inst, pos, counter)[6 := Wrap64(counter as int + 1)] == InputBlock(inst, pos, counter + 1)
  {
  }

  /** prev_offset before the rotation of iteration i: stale exactly at column 1. */
  ghost predicate PrevTracks(inst: Instance, pos: Position, index: nat, prevOffset: int)
    requires FourSegments(inst)
  {
    Column(inst, pos, index) == 1 || prevOffset == Offset(inst, pos.lane, PrevColumn(inst, pos, index))
  }

  /** Offsets of a segment stay in 32 bits, and so does the one after it. */
  lemma SegmentInMemory(inst: Instance, pos: Position, index: nat)
    requires ValidPosition(inst, pos) && index < inst.segmentLength
    ensures Offset(inst, pos.lane, Column(inst, pos, index)) == CurrOffset(inst, pos, index) < inst.memoryBlocks
    ensures CurrOffset(inst, pos, index) % inst.laneLength == Column(inst, pos, index) < inst.laneLength
    ensures Offset(inst, pos.lane, 0) + inst.laneLength <= inst.memoryBlocks
    ensures CurrOffset(inst, pos, index) == pos.lane * inst.laneLength + Column(inst, pos, index)
  {
    ColumnInLane(inst, pos, index);
    OffsetRoundTrip(inst, pos.lane, Column(inst, pos, index));
    OffsetRoundTrip(inst, pos.lane, inst.laneLength - 1);
  }

  /** The first offsets of a segment, as computed from the position. */
  method StartOffsets(inst: Instance, pos: Position, start: nat) returns (currOffset: U32, prevOffset: U32)
    requires ValidPosition(inst, pos) && start <= inst.segmentLength
    ensures start < inst.segmentLength ==>
      currOffset == CurrOffset(inst, pos, start) && PrevTracks(inst, pos, start, prevOffset)
  {
    SegmentStartIsProduct(inst, pos.slice);
    if start < inst.segmentLength {
      SegmentInMemory(inst, pos, start);
    }
    currOffset := Wrap32(pos.lane * inst.laneLength + pos.slice * inst.segmentLength + start);
    if currOffset % inst.laneLength == 0 {
      prevOffset := Wrap32(currOffset + inst.laneLength - 1);
    } else {
      prevOffset := Wrap32(currOffset - 1);
    }
  }

  /** Step 1.1: rotate prev_offset if needed. */
  method RotatePrev(inst: Instance, pos: Position, i: U32, currOffset: U32, prevOffset: U32) returns (r: U32)
    requires ValidPosition(inst, pos) && i < inst.segmentLength
    requires currOffset == CurrOffset(inst, pos, i) && PrevTracks(inst, pos, i, prevOffset)
    ensures r == PrevOffset(inst, pos, i)
  {
    SegmentInMemory(inst, pos, i);
    r := prevOffset;
    if currOffset % inst.laneLength == 1 {
      r := Wrap32(currOffset - 1);
    }
  }

  /** Steps 1.2.2 and 1.2.3: reference lane and reference index. */
  method ReferenceOffset(inst: Instance, pos: Position, i: U32, pseudoRand: U64) returns (refOffset: nat)
    requires ValidPosition(inst, pos) && StartIndex(pos) <= i < inst.segmentLength
    ensures refOffset == RefOffset(inst, pos, i, pseudoRand)
  {
    var refLane := RefLane(inst, pos, pseudoRand);
    var refIndex := IndexAlpha(inst, pos.pass, pos.slice, i, Wrap32(pseudoRand), refLane == pos.lane);
    assert refIndex == RefColumn(inst, pos, i, pseudoRand);
    refOffset := Offset(inst, refLane, refIndex);
  }

  /** Step 1.2.1 in data-independent mode: refill the cached address block when it runs out. */
  method CachedAddress(inst: Instance, p: Primitives, pos: Position, i: U32, addressBlock: Block, inputBlock: Block)
    returns (pseudoRand: U64, newAddressBlock: Block, newInputBlock: Block)
    requires pos.slice < 4 && i < 0xFFFF_FFFF
    requires AddressesReady(inst, p, pos, i, addressBlock, inputBlock)
    ensures pseudoRand == AddressBlock(p, InputBlock(inst, pos, i / 128 + 1))[i % 128]
    ensures AddressesReady(inst, p, pos, i + 1, newAddressBlock, newInputBlock)
  {
    newAddressBlock, newInputBlock := addressBlock, inputBlock;
    if i % 128 == 0 {
      CounterStep(inst, pos, Generated(i));
      newAddressBlock, newInputBlock := NextAddresses(p, inputBlock);
    }
    assert Generated(i + 1) == i / 128 + 1;
    pseudoRand := newAddressBlock[i % 128];
  }

  /** Step 2: create the new block. */
  method CreateBlock(inst: Instance, p: Primitives, memory: array<Block>, pos: Position, i: U32,
                     currOffset: U32, prevOffset: U32, pseudoRand: U64)
    requires ValidPosition(inst, pos) && memory.Length == inst.memoryBlocks
    requires StartIndex(pos) <= i < inst.segmentLength
    requires currOffset == CurrOffset(inst, pos, i) && prevOffset == PrevOffset(inst, pos, i)
    requires pseudoRand == PseudoRand(inst, p, memory[..], pos, i)
    modifies memory
    ensures memory[..] == WriteBlock(inst, p, old(memory[..]), pos, i)
  {
    var refOffset := ReferenceOffset(inst, pos, i, pseudoRand);
    if inst.version == VERSION_10 {
      memory[currOffset] := FillBlock(p, memory[prevOffset], memory[refOffset], memory[currOffset], false);
    } else if pos.pass == 0 {
      memory[currOffset] := FillBlock(p, memory[prevOffset], memory[refOffset], memory[currOffset], false);
    } else {
      memory[currOffset] := FillBlock(p, memory[prevOffset], memory[refOffset], memory[currOffset], true);
    }
  }

  /** The loop increments. */
  method AdvanceOffsets(inst: Instance, pos: Position, i: U32, currOffset: U32, prevOffset: U32)
    returns (nextCurr: U32, nextPrev: U32)
    requires ValidPosition(inst, pos) && i < inst.segmentLength
    requires currOffset == CurrOffset(inst, pos, i) && prevOffset == PrevOffset(inst, pos, i)
    ensures i + 1 < inst.segmentLength ==> nextCurr == CurrOffset(inst, pos, i + 1)
    ensures PrevTracks(inst, pos, i + 1, nextPrev)
  {
    nextCurr, nextPrev := Wrap32(currOffset + 1), Wrap32(prevOffset + 1);
  }

  /** Start index and address buffers; the very first segment needs its first address block here. */
  method StartBuffers(inst: Instance, p: Primitives, pos: Position)
    returns (start: U32, addressBlock: Block, inputBlock: Block)
    requires ValidPosition(inst, pos)
    ensures start == StartIndex(pos)
    ensures DataIndependent(inst, pos) ==> AddressesReady(inst, p, pos, start, addressBlock, inputBlock)
  {
    start, addressBlock, inputBlock := 0, ZERO, ZERO;
    if DataIndependent(inst, pos) {
      inputBlock := InputBlock(inst, pos, 0);
    }
    if pos.pass == 0 && pos.slice == 0 {
      start := 2;
      if DataIndependent(inst, pos) {
        CounterStep(inst, pos, 0);
        addressBlock, inputBlock := NextAddresses(p, inputBlock);
      }
    }
  }

  ghost predicate AddressesReady(inst: Instance, p: Primitives, pos: Position, i: nat, addressBlock: Block,
                                 inputBlock: Block)
    requires pos.slice < 4 && i < 0x1_0000_0000
  {
    && inputBlock == InputBlock(inst, pos, Generated(i))
    && (i > 0 ==> addressBlock == AddressBlock(p, inputBlock))
  }

  /** The local variables of fill_segment before iteration i. */
  ghost predicate Tracks(inst: Instance, p: Primitives, pos: Position, i: U32, currOffset: U32, prevOffset: U32,
                         addressBlock: Block, inputBlock: Block)
    requires ValidPosition(inst, pos)
  {
    && (i < inst.segmentLength ==> currOffset == CurrOffset(inst, pos, i) && PrevTracks(inst, pos, i, prevOffset))
    && (DataIndependent(inst, pos) ==> AddressesReady(inst, p, pos, i, addressBlock, inputBlock))
  }

  method StartSegment(inst: Instance, p: Primitives, pos: Position)
    returns (start: U32, currOffset: U32, prevOffset: U32, addressBlock: Block, inputBlock: Block)
    requires ValidPosition(inst, pos)
    ensures start == StartIndex(pos)
    ensures Tracks(inst, p, pos, start, currOffset, prevOffset, addressBlock, inputBlock)
  {
    start, addressBlock, inputBlock := StartBuffers(inst, p, pos);
    currOffset, prevOffset := StartOffsets(inst, pos, start);
  }

  /** One iteration of the loop of fill_segment. */
  method FillOne(inst: Instance, p: Primitives, memory: array<Block>, pos: Position, i: U32,
                 currOffset: U32, prevOffset: U32, addressBlock: Block, inputBlock: Block)
    returns (nextCurr: U32, nextPrev: U32, nextAddress: Block, nextInput: Block)
    requires ValidPosition(inst, pos) && memory.Length == inst.memoryBlocks
    requires StartIndex(pos) <= i < inst.segmentLength
    requires Tracks(inst, p, pos, i, currOffset, prevOffset, addressBlock, inputBlock)
    modifies memory
    ensures memory[..] == WriteBlock(inst, p, old(memory[..]), pos, i)
    ensures Tracks(inst, p, pos, i + 1, nextCurr, nextPrev, nextAddress, nextInput)
  {
    var prev := RotatePrev(inst, pos, i, currOffset, prevOffset);
    var pseudoRand: U64;
    nextAddress, nextInput := addressBlock, inputBlock;
    if DataIndependent(inst, pos) {
      pseudoRand, nextAddress, nextInput := CachedAddress(inst, p, pos, i, addressBlock, inputBlock);
    } else {
      pseudoRand := memory[prev][0];
    }
    CreateBlock(inst, p, memory, pos, i, currOffset, prev, pseudoRand);
    nextCurr, nextPrev := AdvanceOffsets(inst, pos, i, currOffset, prev);
  }

  /** fill_segment, with its running offsets and its cached address block. */
  method FillSegment(inst: Instance, p: Primitives, memory: array<Block>, pos: Position)
    requires ValidPosition(inst, pos) && memory.Length == inst.memoryBlocks
    modifies memory
    ensures memory[..] == SegmentUpTo(inst, p, old(memory[..]), pos, inst.segmentLength)
  {
    hide WriteBlock, Tracks;
    ghost var before := memory[..];
    var start, currOffset, prevOffset, addressBlock, inputBlock := StartSegment(inst, p, pos);
    var i: U32 := start;
    while i < inst.segmentLength
      invariant StartIndex(pos) <= i <= inst.segmentLength
      invariant Tracks(inst, p, pos, i, currOffset, prevOffset, addressBlock, inputBlock)
      invariant memory[..] == SegmentUpTo(inst, p, before, pos, i)
    {
      currOffset, prevOffset, addressBlock, inputBlock :=
        FillOne(inst, p, memory, pos, i, currOffset, prevOffset, addressBlock, inputBlock);
      i := i + 1;
    }
  }

  /** fill_memory_blocks_st */
  method FillMemoryBlocksSt(inst: Instance, p: Primitives, memory: array<Block>)
    requires WellFormed(inst) && memory.Length == inst.memoryBlocks
    modifies memory
    ensures memory[..] == FillUpTo(inst, p, old(memory[..]), inst.passes)
  {
    hide WellFormed, PassUpTo;
    var r: U32 := 0;
    while r < inst.passes
      invariant 0 <= r <= inst.passes
      invariant memory[..] == FillUpTo(inst, p, old(memory[..]), r)
    {
      FillPass(inst, p, memory, r);
      r := r + 1;
    }
  }

  /** The slice loop of one pass. */
  method FillPass(inst: Instance, p: Primitives, memory: array<Block>, r: U32)
    requires WellFormed(inst) && memory.Length == inst.memoryBlocks
    modifies memory
    ensures memory[..] == PassUpTo(inst, p, old(memory[..]), r, 4)
  {
    hide WellFormed, SliceUpTo;
    var s := 0;
    while s < 4
      invariant 0 <= s <= 4
      invariant memory[..] == PassUpTo(inst, p, old(memory[..]), r, s)
    {
      FillSlice(inst, p, memory, r, s);
      s := s + 1;
    }
  }

  /** The lane loop of one slice. */
  method FillSlice(inst: Instance, p: Primitives, memory: array<Block>, r: U32, s: nat)
    requires WellFormed(inst) && memory.Length == inst.memoryBlocks && s < 4
    modifies memory
    ensures memory[..] == SliceUpTo(inst, p, old(memory[..]), r, s, inst.lanes)
  {
    hide SegmentUpTo;
    var l: U32 := 0;
    while l < inst.lanes
      invariant 0 <= l <= inst.lanes
      invariant memory[..] == SliceUpTo(inst, p, old(memory[..]), r, s, l)
    {
      FillSegment(inst, p, memory, Position(r, s, l));
      l := l + 1;
    }
  }
}
