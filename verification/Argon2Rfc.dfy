/** The filled memory as RFC 9106 defines it: equations that give every block of every pass from earlier blocks, with
    no order of computation and no running state. */
module Argon2Rfc {
  import opened Words
  import opened Argon2Context
  import opened Argon2Index
  import opened Argon2Fill
  import opened Argon2Lanes
  import T = Argon2Tag

  /** Section 3.5: R = X XOR Y, and the result is R XOR P(R). */
  function Compress(p: Primitives, x: Block, y: Block): Block {
    p.xor(p.xor(y, x), p.permute(p.xor(y, x)))
  }

  /** The value y of section 3.2. */
  function TypeValue(kind: Kind): U64 {
    if kind.Argon2d? then 0 else if kind.Argon2i? then 1 else 2
  }

  /** Section 3.4.1: the addresses of Argon2i, and those of Argon2id in the first two slices of pass 0, do not depend on
      the memory. */
  predicate Independent(inst: Instance, pass: U32, col: nat) {
    inst.kind.Argon2i? || (inst.kind.Argon2id? && pass == 0 && col < 2 * inst.segmentLength)
  }

  /** Section 3.4.1.2: word i mod 128 of the address block number i / 128 + 1 of a segment. */
  function AddressWord(inst: Instance, p: Primitives, pass: U32, lane: U32, slice: nat, i: nat): U64
    requires slice < 4 && i < 0x1_0000_0000
  {
    var z: Block := [pass, lane, slice, inst.memoryBlocks, inst.passes, TypeValue(inst.kind), i / 128 + 1] + Zeros(121);
    Compress(p, ZERO, Compress(p, ZERO, z))[i % 128]
  }

  /** A block that is computed and not given. */
  predicate IsComputed(inst: Instance, pass: U32, col: nat) {
    col < inst.laneLength && (pass > 0 || col >= 2)
  }

  /** Section 3.4.2: J2 mod p, but the own lane in the first slice of pass 0. */
  function RfcLane(inst: Instance, pass: U32, lane: U32, col: nat, j2: nat): nat
    requires WellFormed(inst) && lane < inst.lanes
  {
    if pass == 0 && col < inst.segmentLength then lane else j2 % inst.lanes
  }

  /** Section 3.4.2: with x = J1^2 / 2^32 and y = |W| * x / 2^32, element |W| - 1 - y of W. */
  function Chosen(inst: Instance, pass: U32, slice: nat, index: U32, j1: U32, own: bool): (z: nat)
    requires FourSegments(inst) && Reachable(inst, pass, slice, index, own)
    ensures z == IndexAlpha(inst, pass, slice, index, j1, own)
  {
    IndexAlphaIsRfc9106(inst, pass, slice, index, j1, own);
    var w := ReferenceSet(inst, pass, slice, index, own);
    w[|w| - 1 - |w| * (j1 * j1 / 0x1_0000_0000) / 0x1_0000_0000]
  }

  function RfcColumn(inst: Instance, pass: U32, lane: U32, col: nat, j1: U32, j2: nat): (z: nat)
    requires WellFormed(inst) && lane < inst.lanes && IsComputed(inst, pass, col)
    ensures z < inst.laneLength && (pass == 0 ==> z < col)
  {
    var slice := SliceOf(inst, col);
    var index := col - SegmentStart(inst, slice);
    var own := RfcLane(inst, pass, lane, col, j2) == lane;
    ReferenceIsSafe(inst, pass, slice, index, j1, own);
    Chosen(inst, pass, slice, index, j1, own)
  }

  /** Section 3.2, steps 3 to 6: the block in a column of a lane after a pass. From version 0x13 on, a later pass XORs
      into the block of the pass before. */
  function Value(inst: Instance, p: Primitives, pass: U32, lane: U32, col: nat): Block
    requires WellFormed(inst) && lane < inst.lanes && col < inst.laneLength
    decreases pass, col
  {
    if pass == 0 && col < 2 then p.firstBlock(col, lane)
    else
      var prev := if col > 0 then Value(inst, p, pass, lane, col - 1)
                  else Value(inst, p, pass - 1, lane, inst.laneLength - 1);
      var word := RfcWord(inst, p, pass, lane, col, prev);
      var j1, j2 := word % 0x1_0000_0000, word / 0x1_0000_0000;
      var l, z := RfcLane(inst, pass, lane, col, j2), RfcColumn(inst, pass, lane, col, j1, j2);
      var ref := Value(inst, p, if z < col then pass else pass - 1, l, z);
      if pass == 0 || inst.version == 0x10 then Compress(p, prev, ref)
      else p.xor(p.xor(p.xor(ref, prev), Value(inst, p, pass - 1, lane, col)), p.permute(p.xor(ref, prev)))
  }

  /** J1 and J2 in one word. */
  function RfcWord(inst: Instance, p: Primitives, pass: U32, lane: U32, col: nat, prev: Block): U64
    requires WellFormed(inst) && col < inst.laneLength
  {
    var slice := SliceOf(inst, col);
    if Independent(inst, pass, col) then AddressWord(inst, p, pass, lane, slice, col - SegmentStart(inst, slice))
    else prev[0]
  }

  // ---- one block -------------------------------------------------------------------------------

  lemma PlaceOfIndex(inst: Instance, pos: Position, index: nat)
    requires ValidPosition(inst, pos) && StartIndex(pos) <= index < inst.segmentLength
    ensures var col := Column(inst, pos, index);
            && IsComputed(inst, pos.pass, col) && SliceOf(inst, col) == pos.slice
            && col - SegmentStart(inst, pos.slice) == index
            && (pos.pass == 0 && pos.slice == 0 <==> pos.pass == 0 && col < inst.segmentLength)
            && (pos.slice < 2 <==> col < 2 * inst.segmentLength)
  {
  }

  lemma AddressIs(inst: Instance, p: Primitives, pos: Position, i: nat)
    requires pos.slice < 4 && i < 0x1_0000_0000
    ensures AddressBlock(p, InputBlock(inst, pos, i / 128 + 1))[i % 128]
      == AddressWord(inst, p, pos.pass, pos.lane, pos.slice, i)
  {
  }

  /** The word that a new block's addresses come from. */
  lemma WordIsRfc(inst: Instance, p: Primitives, mem: seq<Block>, pos: Position, index: nat)
    requires ValidPosition(inst, pos) && |mem| == inst.memoryBlocks && StartIndex(pos) <= index < inst.segmentLength
    ensures PseudoRand(inst, p, mem, pos, index)
      == RfcWord(inst, p, pos.pass, pos.lane, Column(inst, pos, index), mem[PrevOffset(inst, pos, index)])
  {
    PlaceOfIndex(inst, pos, index);
    AddressIs(inst, p, pos, index);
    hide AddressBlock, InputBlock, AddressWord, Offset;
  }

  /** The block a new one refers to: lane J2 mod p and element |W| - 1 - y of W, for J1 and J2 the low and the high half
      of the word. */
  lemma ReferenceIsRfc(inst: Instance, pos: Position, index: nat, word: U64)
    requires ValidPosition(inst, pos) && StartIndex(pos) <= index < inst.segmentLength
    ensures IsComputed(inst, pos.pass, Column(inst, pos, index))
    ensures var col := Column(inst, pos, index);
            var j1, j2 := word % 0x1_0000_0000, word / 0x1_0000_0000;
            && RefLane(inst, pos, word) == RfcLane(inst, pos.pass, pos.lane, col, j2)
            && RefColumn(inst, pos, index, word) == RfcColumn(inst, pos.pass, pos.lane, col, j1, j2)
  {
    PlaceOfIndex(inst, pos, index);
    hide IndexAlpha, Chosen, SliceOf, Column;
  }

  /** The offset of that block, for all J1 and J2. */
  lemma RefOffsetIsRfc(inst: Instance, pos: Position, index: nat, j1: U32, j2: U32)
    requires ValidPosition(inst, pos) && StartIndex(pos) <= index < inst.segmentLength
    ensures var o := RefOffset(inst, pos, index, j2 * 0x1_0000_0000 + j1);
            var l, c := o / inst.laneLength, o % inst.laneLength;
            && 0 <= l < inst.lanes && 0 <= c
            && (if pos.pass == 0 && pos.slice == 0 then l == pos.lane else l == j2 % inst.lanes)
            && CandidateColumns(inst, pos.pass, pos.slice, index, l == pos.lane) != []
            && var w := ReferenceSet(inst, pos.pass, pos.slice, index, l == pos.lane);
               var y := |w| * (j1 * j1 / 0x1_0000_0000) / 0x1_0000_0000;
               0 <= y < |w| && c == w[|w| - 1 - y]
  {
    var word := j2 * 0x1_0000_0000 + j1;
    assert word % 0x1_0000_0000 == j1 && word / 0x1_0000_0000 == j2;
    PlaceOfIndex(inst, pos, index);
    ReferenceIsRfc(inst, pos, index, word);
    var l, c := RefLane(inst, pos, word), RefColumn(inst, pos, index, word);
    OffsetRoundTrip(inst, l, c);
    IndexAlphaIsRfc9106(inst, pos.pass, pos.slice, index, j1, l == pos.lane);
    hide IndexAlpha, ReferenceSet, CandidateColumns, Offset;
  }

  // ---- the memory in the middle of a pass ------------------------------------------------------

  /** The pass has written this place before lane `lane` reaches `index` in the slice, or it was given. */
  predicate Written(inst: Instance, pass: U32, slice: nat, lane: nat, index: nat, l: nat, c: nat) {
    || (pass == 0 && c < 2)
    || c < SegmentStart(inst, slice)
    || (InSlice(inst, slice, c) && (l < lane || (l == lane && c < SegmentStart(inst, slice) + index)))
  }

  /** Every place that is defined by now holds its value of this pass, or still that of the pass before. */
  ghost predicate Holds(inst: Instance, p: Primitives, mem: seq<Block>, pass: U32, slice: nat, lane: nat, index: nat)
    requires WellFormed(inst) && |mem| == inst.memoryBlocks
  {
    forall l, c :: 0 <= l < inst.lanes && 0 <= c < inst.laneLength ==>
      HoldsAt(inst, p, mem, pass, Written(inst, pass, slice, lane, index, l, c), l, c)
  }

  ghost predicate HoldsAt(inst: Instance, p: Primitives, mem: seq<Block>, pass: U32, written: bool, l: nat, c: nat)
    requires WellFormed(inst) && |mem| == inst.memoryBlocks && l < inst.lanes && c < inst.laneLength
  {
    && (written ==> At(inst, mem, l, c) == Value(inst, p, pass, l, c))
    && (!written && pass > 0 ==> At(inst, mem, l, c) == Value(inst, p, pass - 1, l, c))
  }

  /** The equation of a computed block. */
  lemma ValueIs(inst: Instance, p: Primitives, pass: U32, lane: U32, col: nat, prev: Block, word: U64, ref: Block)
    requires WellFormed(inst) && lane < inst.lanes && IsComputed(inst, pass, col)
    requires prev == if col > 0 then Value(inst, p, pass, lane, col - 1)
                     else Value(inst, p, pass - 1, lane, inst.laneLength - 1)
    requires word == RfcWord(inst, p, pass, lane, col, prev)
    requires var j1, j2 := word % 0x1_0000_0000, word / 0x1_0000_0000;
             var l, z := RfcLane(inst, pass, lane, col, j2), RfcColumn(inst, pass, lane, col, j1, j2);
             ref == Value(inst, p, if z < col then pass else pass - 1, l, z)
    ensures Value(inst, p, pass, lane, col) ==
            if pass == 0 || inst.version == 0x10 then Compress(p, prev, ref)
            else p.xor(p.xor(p.xor(ref, prev), Value(inst, p, pass - 1, lane, col)), p.permute(p.xor(ref, prev)))
  {
    hide RfcWord, RfcLane, RfcColumn, WellFormed, Compress;
  }

  /** A new block is compressed from the previous block and the reference block. */
  lemma NewBlockParts(inst: Instance, p: Primitives, mem: seq<Block>, pos: Position, index: nat)
    requires ValidPosition(inst, pos) && |mem| == inst.memoryBlocks && StartIndex(pos) <= index < inst.segmentLength
    ensures var prev := mem[PrevOffset(inst, pos, index)];
            var ref := mem[RefOffset(inst, pos, index, PseudoRand(inst, p, mem, pos, index))];
            NewBlock(inst, p, mem, pos, index) ==
            if pos.pass == 0 || inst.version == 0x10 then Compress(p, prev, ref)
            else p.xor(p.xor(p.xor(ref, prev), mem[CurrOffset(inst, pos, index)]), p.permute(p.xor(ref, prev)))
  {
    hide PseudoRand, RefOffset, CurrOffset, PrevOffset, WellFormed;
  }

  /** The next block of a lane is the one defined for its place. */
  lemma NewBlockIsRfc(inst: Instance, p: Primitives, mem: seq<Block>, pos: Position, index: nat)
    requires ValidPosition(inst, pos) && |mem| == inst.memoryBlocks && StartIndex(pos) <= index < inst.segmentLength
    requires Holds(inst, p, mem, pos.pass, pos.slice, pos.lane, index)
    ensures Column(inst, pos, index) < inst.laneLength
    ensures NewBlock(inst, p, mem, pos, index) == Value(inst, p, pos.pass, pos.lane, Column(inst, pos, index))
  {
    hide *;
    ValidParts(inst, pos);
    PlaceOfIndex(inst, pos, index);
    PrevHolds(inst, p, mem, pos, index);
    var word := PseudoRand(inst, p, mem, pos, index);
    WordIsRfc(inst, p, mem, pos, index);
    ReferenceIsRfc(inst, pos, index, word);
    RefHolds(inst, p, mem, pos, index, word);
    CurrentHolds(inst, p, mem, pos, index);
    NewBlockParts(inst, p, mem, pos, index);
    ValueIs(inst, p, pos.pass, pos.lane, Column(inst, pos, index), mem[PrevOffset(inst, pos, index)], word,
            mem[RefOffset(inst, pos, index, word)]);
  }

  lemma ValidParts(inst: Instance, pos: Position)
    requires ValidPosition(inst, pos)
    ensures WellFormed(inst) && FourSegments(inst) && pos.lane < inst.lanes && pos.slice < 4
  {
  }

  lemma HoldsThere(inst: Instance, p: Primitives, mem: seq<Block>, pass: U32, slice: nat, lane: nat, index: nat,
                   l: nat, c: nat)
    requires WellFormed(inst) && |mem| == inst.memoryBlocks && l < inst.lanes && c < inst.laneLength
    requires Holds(inst, p, mem, pass, slice, lane, index)
    ensures Written(inst, pass, slice, lane, index, l, c) ==> At(inst, mem, l, c) == Value(inst, p, pass, l, c)
    ensures !Written(inst, pass, slice, lane, index, l, c) && pass > 0 ==>
              At(inst, mem, l, c) == Value(inst, p, pass - 1, l, c)
  {
    assert HoldsAt(inst, p, mem, pass, Written(inst, pass, slice, lane, index, l, c), l, c);
    hide Value, At, Written, WellFormed, Holds;
  }

  /** Where the previous block is, and whether this pass has written it. */
  lemma PrevIsAt(inst: Instance, mem: seq<Block>, pos: Position, index: nat)
    requires ValidPosition(inst, pos) && |mem| == inst.memoryBlocks && StartIndex(pos) <= index < inst.segmentLength
    ensures var col, c := Column(inst, pos, index), PrevColumn(inst, pos, index);
            && col < inst.laneLength && (pos.pass == 0 ==> col > 0)
            && c == (if col > 0 then col - 1 else inst.laneLength - 1) && c < inst.laneLength
            && mem[PrevOffset(inst, pos, index)] == At(inst, mem, pos.lane, c)
            && (Written(inst, pos.pass, pos.slice, pos.lane, index, pos.lane, c) <==> col > 0)
  {
    ColumnInLane(inst, pos, index);
    hide Offset;
  }

  lemma PrevHolds(inst: Instance, p: Primitives, mem: seq<Block>, pos: Position, index: nat)
    requires ValidPosition(inst, pos) && |mem| == inst.memoryBlocks && StartIndex(pos) <= index < inst.segmentLength
    requires Holds(inst, p, mem, pos.pass, pos.slice, pos.lane, index)
    ensures var col := Column(inst, pos, index);
            && col < inst.laneLength && (pos.pass == 0 ==> col > 0)
            && mem[PrevOffset(inst, pos, index)]
               == if col > 0 then Value(inst, p, pos.pass, pos.lane, col - 1)
                  else Value(inst, p, pos.pass - 1, pos.lane, inst.laneLength - 1)
  {
    hide *;
    ValidParts(inst, pos);
    PrevIsAt(inst, mem, pos, index);
    HoldsThere(inst, p, mem, pos.pass, pos.slice, pos.lane, index, pos.lane, PrevColumn(inst, pos, index));
  }

  lemma RefHolds(inst: Instance, p: Primitives, mem: seq<Block>, pos: Position, index: nat, word: U64)
    requires ValidPosition(inst, pos) && |mem| == inst.memoryBlocks && StartIndex(pos) <= index < inst.segmentLength
    requires Holds(inst, p, mem, pos.pass, pos.slice, pos.lane, index)
    ensures var l, z := RefLane(inst, pos, word), RefColumn(inst, pos, index, word);
            var col := Column(inst, pos, index);
            && (pos.pass == 0 ==> z < col)
            && mem[RefOffset(inst, pos, index, word)]
               == Value(inst, p, if z < col then pos.pass else pos.pass - 1, l, z)
  {
    var l, z := RefLane(inst, pos, word), RefColumn(inst, pos, index, word);
    ReferenceIsSafe(inst, pos.pass, pos.slice, index, Wrap32(word), l == pos.lane);
    assert HoldsAt(inst, p, mem, pos.pass, Written(inst, pos.pass, pos.slice, pos.lane, index, l, z), l, z);
    hide Value, Offset, Holds, IndexAlpha, RefLane;
  }

  lemma CurrentHolds(inst: Instance, p: Primitives, mem: seq<Block>, pos: Position, index: nat)
    requires ValidPosition(inst, pos) && |mem| == inst.memoryBlocks && StartIndex(pos) <= index < inst.segmentLength
    requires Holds(inst, p, mem, pos.pass, pos.slice, pos.lane, index)
    ensures Column(inst, pos, index) < inst.laneLength
    ensures pos.pass > 0 ==> mem[CurrOffset(inst, pos, index)]
                             == Value(inst, p, pos.pass - 1, pos.lane, Column(inst, pos, index))
  {
    var c := Column(inst, pos, index);
    ColumnInLane(inst, pos, index);
    assert HoldsAt(inst, p, mem, pos.pass, Written(inst, pos.pass, pos.slice, pos.lane, index, pos.lane, c), pos.lane,
                   c);
    hide Value, Offset, Holds;
  }

  lemma {:induction false} SegmentHolds(inst: Instance, p: Primitives, mem: seq<Block>, pos: Position, index: nat)
    requires ValidPosition(inst, pos) && |mem| == inst.memoryBlocks && StartIndex(pos) <= index <= inst.segmentLength
    requires Holds(inst, p, mem, pos.pass, pos.slice, pos.lane, StartIndex(pos))
    ensures Holds(inst, p, SegmentUpTo(inst, p, mem, pos, index), pos.pass, pos.slice, pos.lane, index)
  {
    if index > StartIndex(pos) {
      SegmentHolds(inst, p, mem, pos, index - 1);
      StepHolds(inst, p, SegmentUpTo(inst, p, mem, pos, index - 1), pos, index - 1);
      hide Holds, WriteBlock;
    }
  }

  lemma StepHolds(inst: Instance, p: Primitives, mem: seq<Block>, pos: Position, index: nat)
    requires ValidPosition(inst, pos) && |mem| == inst.memoryBlocks && StartIndex(pos) <= index < inst.segmentLength
    requires Holds(inst, p, mem, pos.pass, pos.slice, pos.lane, index)
    ensures Holds(inst, p, WriteBlock(inst, p, mem, pos, index), pos.pass, pos.slice, pos.lane, index + 1)
  {
    NewBlockIsRfc(inst, p, mem, pos, index);
    hide At, NewBlock, WriteBlock, Value;
    var next := index + 1;
    forall l, c | 0 <= l < inst.lanes && 0 <= c < inst.laneLength
      ensures HoldsAt(inst, p, WriteBlock(inst, p, mem, pos, index), pos.pass,
                      Written(inst, pos.pass, pos.slice, pos.lane, next, l, c), l, c)
    {
      WriteEffect(inst, p, mem, pos, index, l, c);
      assert HoldsAt(inst, p, mem, pos.pass, Written(inst, pos.pass, pos.slice, pos.lane, index, l, c), l, c);
    }
  }

  ghost predicate PassHolds(inst: Instance, p: Primitives, mem: seq<Block>, pass: U32)
    requires WellFormed(inst) && |mem| == inst.memoryBlocks
  {
    forall l, c :: 0 <= l < inst.lanes && 0 <= c < inst.laneLength ==> HoldsAt(inst, p, mem, pass, true, l, c)
  }

  /** A finished lane hands over to the next one. */
  lemma NextLane(inst: Instance, p: Primitives, mem: seq<Block>, pass: U32, slice: nat, lane: nat)
    requires WellFormed(inst) && |mem| == inst.memoryBlocks && slice < 4 && lane < inst.lanes
    requires Holds(inst, p, mem, pass, slice, lane, inst.segmentLength)
    ensures Holds(inst, p, mem, pass, slice, lane + 1, StartIndex(Position(pass, slice, 0)))
  {
    hide HoldsAt;
    var next, start := lane + 1, StartIndex(Position(pass, slice, 0));
    forall l, c | 0 <= l < inst.lanes && 0 <= c < inst.laneLength
      ensures HoldsAt(inst, p, mem, pass, Written(inst, pass, slice, next, start, l, c), l, c)
    {
      assert Written(inst, pass, slice, next, start, l, c)
        == Written(inst, pass, slice, lane, inst.segmentLength, l, c);
    }
  }

  /** A finished slice hands over to the next one. */
  lemma NextSlice(inst: Instance, p: Primitives, mem: seq<Block>, pass: U32, slice: nat, index: nat)
    requires WellFormed(inst) && |mem| == inst.memoryBlocks && slice < 3
    requires Holds(inst, p, mem, pass, slice, inst.lanes, index)
    ensures Holds(inst, p, mem, pass, slice + 1, 0, 0)
  {
    hide HoldsAt;
    var next := slice + 1;
    forall l, c | 0 <= l < inst.lanes && 0 <= c < inst.laneLength
      ensures HoldsAt(inst, p, mem, pass, Written(inst, pass, next, 0, 0, l, c), l, c)
    {
      assert Written(inst, pass, next, 0, 0, l, c) == Written(inst, pass, slice, inst.lanes, index, l, c);
    }
  }

  /** A finished pass hands over to the next one. */
  lemma PassDone(inst: Instance, p: Primitives, mem: seq<Block>, pass: U32, index: nat)
    requires WellFormed(inst) && |mem| == inst.memoryBlocks && Holds(inst, p, mem, pass, 3, inst.lanes, index)
    ensures PassHolds(inst, p, mem, pass)
  {
    hide HoldsAt;
    forall l, c | 0 <= l < inst.lanes && 0 <= c < inst.laneLength
      ensures HoldsAt(inst, p, mem, pass, true, l, c)
    {
      assert Written(inst, pass, 3, inst.lanes, index, l, c);
    }
  }

  lemma NextPass(inst: Instance, p: Primitives, mem: seq<Block>, pass: U32)
    requires WellFormed(inst) && |mem| == inst.memoryBlocks && PassHolds(inst, p, mem, pass) && pass + 1 < 0x1_0000_0000
    ensures Holds(inst, p, mem, pass + 1, 0, 0, 0)
  {
    hide Value, At;
    var next := pass + 1;
    forall l, c | 0 <= l < inst.lanes && 0 <= c < inst.laneLength
      ensures HoldsAt(inst, p, mem, next, Written(inst, next, 0, 0, 0, l, c), l, c)
    {
      assert HoldsAt(inst, p, mem, pass, true, l, c);
    }
  }

  lemma {:induction false} SliceHolds(inst: Instance, p: Primitives, mem: seq<Block>, pass: U32, slice: nat, lanes: nat)
    requires WellFormed(inst) && |mem| == inst.memoryBlocks && slice < 4 && lanes <= inst.lanes
    requires Holds(inst, p, mem, pass, slice, 0, StartIndex(Position(pass, slice, 0)))
    ensures Holds(inst, p, SliceUpTo(inst, p, mem, pass, slice, lanes), pass, slice, lanes,
                  StartIndex(Position(pass, slice, 0)))
  {
    if lanes > 0 {
      SliceHolds(inst, p, mem, pass, slice, lanes - 1);
      var before := SliceUpTo(inst, p, mem, pass, slice, lanes - 1);
      SegmentHolds(inst, p, before, Position(pass, slice, lanes - 1), inst.segmentLength);
      NextLane(inst, p, SliceUpTo(inst, p, mem, pass, slice, lanes), pass, slice, lanes - 1);
      hide Holds, SegmentUpTo;
    }
  }

  lemma {:induction false} PassesHold(inst: Instance, p: Primitives, mem: seq<Block>, pass: U32, slices: nat)
    requires WellFormed(inst) && |mem| == inst.memoryBlocks && slices < 4
    requires Holds(inst, p, mem, pass, 0, 0, StartIndex(Position(pass, 0, 0)))
    ensures Holds(inst, p, PassUpTo(inst, p, mem, pass, slices), pass, slices, 0,
                  StartIndex(Position(pass, slices, 0)))
  {
    if slices > 0 {
      PassesHold(inst, p, mem, pass, slices - 1);
      var before := PassUpTo(inst, p, mem, pass, slices - 1);
      SliceHolds(inst, p, before, pass, slices - 1, inst.lanes);
      NextSlice(inst, p, PassUpTo(inst, p, mem, pass, slices), pass, slices - 1,
                StartIndex(Position(pass, slices - 1, 0)));
      hide Holds, SliceUpTo;
    }
  }

  lemma OnePassHolds(inst: Instance, p: Primitives, mem: seq<Block>, pass: U32)
    requires WellFormed(inst) && |mem| == inst.memoryBlocks
    requires Holds(inst, p, mem, pass, 0, 0, StartIndex(Position(pass, 0, 0)))
    ensures PassHolds(inst, p, PassUpTo(inst, p, mem, pass, 4), pass)
  {
    PassesHold(inst, p, mem, pass, 3);
    SliceHolds(inst, p, PassUpTo(inst, p, mem, pass, 3), pass, 3, inst.lanes);
    PassDone(inst, p, PassUpTo(inst, p, mem, pass, 4), pass, StartIndex(Position(pass, 3, 0)));
    hide Holds, PassHolds, SliceUpTo;
  }

  lemma FirstBlocksHold(inst: Instance, p: Primitives, garbage: seq<Block>)
    requires WellFormed(inst) && |garbage| == inst.memoryBlocks
    ensures Holds(inst, p, FirstBlocksUpTo(inst, p, garbage, inst.lanes), 0, 0, 0, 2)
  {
    hide At, FirstBlocksUpTo;
    var mem := FirstBlocksUpTo(inst, p, garbage, inst.lanes);
    forall l, c | 0 <= l < inst.lanes && 0 <= c < inst.laneLength
      ensures HoldsAt(inst, p, mem, 0, Written(inst, 0, 0, 0, 2, l, c), l, c)
    {
      FirstBlocksAt(inst, p, garbage, inst.lanes, l, c);
    }
  }

  /** After any number of passes over any memory, every block is the one that the equations define. */
  lemma {:induction false} FillIsRfc(inst: Instance, p: Primitives, garbage: seq<Block>, passes: U32)
    requires WellFormed(inst) && |garbage| == inst.memoryBlocks && passes >= 1
    ensures var mem := FillUpTo(inst, p, FirstBlocksUpTo(inst, p, garbage, inst.lanes), passes);
            PassHolds(inst, p, mem, passes - 1)
    decreases passes
  {
    var start := FirstBlocksUpTo(inst, p, garbage, inst.lanes);
    if passes == 1 {
      FirstBlocksHold(inst, p, garbage);
      assert FillUpTo(inst, p, start, 0) == start;
      OnePassHolds(inst, p, start, 0);
    } else {
      FillIsRfc(inst, p, garbage, passes - 1);
      var before := FillUpTo(inst, p, start, passes - 1);
      NextPass(inst, p, before, passes - 2);
      OnePassHolds(inst, p, before, passes - 1);
    }
    hide Holds, PassHolds, PassUpTo, FirstBlocksUpTo;
  }

  /** Block by block, for the memory that the tag is computed from. */
  lemma FilledBlockIsRfc(inst: Instance, p: Primitives, garbage: seq<Block>, lane: nat, col: nat)
    requires WellFormed(inst) && |garbage| == inst.memoryBlocks && inst.passes >= 1
    requires lane < inst.lanes && col < inst.laneLength
    ensures At(inst, FillUpTo(inst, p, FirstBlocksUpTo(inst, p, garbage, inst.lanes), inst.passes), lane, col)
      == Value(inst, p, inst.passes - 1, lane, col)
  {
    FillIsRfc(inst, p, garbage, inst.passes);
    hide FillUpTo, FirstBlocksUpTo, At, Value;
    var mem := FillUpTo(inst, p, FirstBlocksUpTo(inst, p, garbage, inst.lanes), inst.passes);
    assert HoldsAt(inst, p, mem, inst.passes - 1, true, lane, col);
  }

  // ---- the tag ---------------------------------------------------------------------------------

  /** Section 3.2, step 7: the last column of the first lanes, XORed. */
  function LastColumn(inst: Instance, p: Primitives, lanes: nat): Block
    requires WellFormed(inst) && 1 <= lanes <= inst.lanes && inst.passes >= 1
  {
    var last := Value(inst, p, inst.passes - 1, lanes - 1, inst.laneLength - 1);
    if lanes == 1 then last else p.xor(LastColumn(inst, p, lanes - 1), last)
  }

  lemma LanesNotEmpty(inst: Instance)
    requires WellFormed(inst)
    ensures inst.laneLength >= 8
  {
  }

  lemma {:induction false} LastBlocksAre(inst: Instance, p: Primitives, garbage: seq<Block>, lanes: nat)
    requires WellFormed(inst) && |garbage| == inst.memoryBlocks && inst.passes >= 1 && 1 <= lanes <= inst.lanes
    ensures T.LastBlocks(inst, p, T.Filled(inst, p, garbage), lanes) == LastColumn(inst, p, lanes)
  {
    hide WellFormed, FillUpTo, FirstBlocksUpTo, Value, At;
    LanesNotEmpty(inst);
    FilledBlockIsRfc(inst, p, garbage, lanes - 1, inst.laneLength - 1);
    if lanes > 1 {
      LastBlocksAre(inst, p, garbage, lanes - 1);
    }
  }

  /** The tag is made from the XOR of the last column that the equations define. */
  lemma TagIsRfc(inst: Instance, p: Primitives)
    requires WellFormed(inst) && inst.passes >= 1
    ensures T.Tag(inst, p) == p.tag(LastColumn(inst, p, inst.lanes))
  {
    LastBlocksAre(inst, p, seq(inst.memoryBlocks, _ => ZERO), inst.lanes);
    hide T.Filled, T.LastBlocks, LastColumn;
  }
}
