/** argon2_ctx as a whole: the tag does not depend on what the allocated memory held before, nor on
    the number of threads and their schedule. */
module Argon2Tag {
  import opened Wrappers
  import opened Words
  import opened Argon2Context
  import opened Argon2Index
  import opened Argon2Fill
  import opened Argon2Lanes
  import opened Argon2Threads

  /** Columns of a lane that are computed when lane `lane` reaches `index` in a slice of the first pass. */
  function Computed(inst: Instance, slice: nat, lane: nat, index: nat, l: nat): nat {
    SegmentStart(inst, slice) +
    if l < lane then inst.segmentLength else if l == lane then index else if slice == 0 then 2 else 0
  }

  ghost predicate AgreeOnComputed(inst: Instance, a: seq<Block>, b: seq<Block>, slice: nat, lane: nat, index: nat)
    requires WellFormed(inst) && |a| == inst.memoryBlocks == |b|
  {
    forall l, c :: 0 <= l < inst.lanes && 0 <= c < inst.laneLength && c < Computed(inst, slice, lane, index, l) ==>
      At(inst, a, l, c) == At(inst, b, l, c)
  }

  /** In the first pass a new block is made of computed blocks only. */
  lemma FirstPassReadsComputed(inst: Instance, p: Primitives, a: seq<Block>, b: seq<Block>, slice: nat, lane: U32,
                               index: nat)
    requires ValidPosition(inst, Position(0, slice, lane)) && |a| == inst.memoryBlocks == |b|
    requires StartIndex(Position(0, slice, lane)) <= index < inst.segmentLength
    requires AgreeOnComputed(inst, a, b, slice, lane, index)
    ensures NewBlock(inst, p, a, Position(0, slice, lane), index)
      == NewBlock(inst, p, b, Position(0, slice, lane), index)
  {
    hide Offset, AddressBlock, InputBlock, IndexAlpha, High32, Wrap32;
    var pos := Position(0, slice, lane);
    ColumnInLane(inst, pos, index);
    assert At(inst, a, lane, PrevColumn(inst, pos, index)) == At(inst, b, lane, PrevColumn(inst, pos, index));
    var j := PseudoRand(inst, p, a, pos, index);
    assert j == PseudoRand(inst, p, b, pos, index);
    var l, c := RefLane(inst, pos, j), RefColumn(inst, pos, index, j);
    ReferenceIsSafe(inst, 0, slice, index, Wrap32(j), l == lane);
    assert At(inst, a, l, c) == At(inst, b, l, c);
  }

  lemma {:induction false} SegmentAgrees(inst: Instance, p: Primitives, a: seq<Block>, b: seq<Block>, slice: nat,
                                         lane: U32, index: nat)
    requires ValidPosition(inst, Position(0, slice, lane)) && |a| == inst.memoryBlocks == |b|
    requires StartIndex(Position(0, slice, lane)) <= index <= inst.segmentLength
    requires AgreeOnComputed(inst, a, b, slice, lane, StartIndex(Position(0, slice, lane)))
    ensures AgreeOnComputed(inst, SegmentUpTo(inst, p, a, Position(0, slice, lane), index),
                            SegmentUpTo(inst, p, b, Position(0, slice, lane), index), slice, lane, index)
  {
    hide At, NewBlock, WriteBlock;
    var pos := Position(0, slice, lane);
    if index > StartIndex(pos) {
      SegmentAgrees(inst, p, a, b, slice, lane, index - 1);
      var a', b' := SegmentUpTo(inst, p, a, pos, index - 1), SegmentUpTo(inst, p, b, pos, index - 1);
      FirstPassReadsComputed(inst, p, a', b', slice, lane, index - 1);
      forall l, c | 0 <= l < inst.lanes && 0 <= c < inst.laneLength && c < Computed(inst, slice, lane, index, l)
        ensures At(inst, SegmentUpTo(inst, p, a, pos, index), l, c)
          == At(inst, SegmentUpTo(inst, p, b, pos, index), l, c)
      {
        WriteEffect(inst, p, a', pos, index - 1, l, c);
        WriteEffect(inst, p, b', pos, index - 1, l, c);
      }
    }
  }

  /** A finished lane hands over to the next one. */
  lemma NextLane(inst: Instance, a: seq<Block>, b: seq<Block>, slice: nat, lane: nat)
    requires WellFormed(inst) && slice < 4 && |a| == inst.memoryBlocks == |b|
    ensures AgreeOnComputed(inst, a, b, slice, lane, inst.segmentLength) ==>
            AgreeOnComputed(inst, a, b, slice, lane + 1, if slice == 0 then 2 else 0)
  {
    hide At;
  }

  lemma {:induction false} SliceAgrees(inst: Instance, p: Primitives, a: seq<Block>, b: seq<Block>, slice: nat,
                                       lanes: nat)
    requires WellFormed(inst) && slice < 4 && lanes <= inst.lanes && |a| == inst.memoryBlocks == |b|
    requires AgreeOnComputed(inst, a, b, slice, 0, if slice == 0 then 2 else 0)
    ensures AgreeOnComputed(inst, SliceUpTo(inst, p, a, 0, slice, lanes), SliceUpTo(inst, p, b, 0, slice, lanes),
                            slice, lanes, if slice == 0 then 2 else 0)
  {
    hide At;
    if lanes > 0 {
      SliceAgrees(inst, p, a, b, slice, lanes - 1);
      hide AgreeOnComputed;
      NextLane(inst, SliceUpTo(inst, p, a, 0, slice, lanes), SliceUpTo(inst, p, b, 0, slice, lanes), slice, lanes - 1);
      SegmentAgrees(inst, p, SliceUpTo(inst, p, a, 0, slice, lanes - 1), SliceUpTo(inst, p, b, 0, slice, lanes - 1),
                    slice, lanes - 1, inst.segmentLength);
    }
  }

  lemma {:induction false} FirstPassAgrees(inst: Instance, p: Primitives, a: seq<Block>, b: seq<Block>, slices: nat)
    requires WellFormed(inst) && 1 <= slices <= 4 && |a| == inst.memoryBlocks == |b|
    requires AgreeOnComputed(inst, a, b, 0, 0, 2)
    ensures AgreeOnComputed(inst, PassUpTo(inst, p, a, 0, slices), PassUpTo(inst, p, b, 0, slices), slices - 1,
                            inst.lanes, 0)
  {
    hide At;
    if slices > 1 {
      FirstPassAgrees(inst, p, a, b, slices - 1);
    }
    var a', b' := PassUpTo(inst, p, a, 0, slices - 1), PassUpTo(inst, p, b, 0, slices - 1);
    SliceAgrees(inst, p, a', b', slices - 1, inst.lanes);
  }

  function Filled(inst: Instance, p: Primitives, garbage: seq<Block>): (r: seq<Block>)
    requires WellFormed(inst) && |garbage| == inst.memoryBlocks
    ensures |r| == inst.memoryBlocks
  {
    FillUpTo(inst, p, FirstBlocksUpTo(inst, p, garbage, inst.lanes), inst.passes)
  }

  /** No block is read before it is written: what the memory held before is irrelevant. */
  lemma FillIgnoresGarbage(inst: Instance, p: Primitives, a: seq<Block>, b: seq<Block>)
    requires WellFormed(inst) && |a| == inst.memoryBlocks == |b| && inst.passes >= 1
    ensures Filled(inst, p, a) == Filled(inst, p, b)
  {
    hide At;
    var a', b' := FirstBlocksUpTo(inst, p, a, inst.lanes), FirstBlocksUpTo(inst, p, b, inst.lanes);
    forall l, c | 0 <= l < inst.lanes && 0 <= c < 2
      ensures At(inst, a', l, c) == At(inst, b', l, c)
    {
      FirstBlocksAt(inst, p, a, inst.lanes, l, c);
      FirstBlocksAt(inst, p, b, inst.lanes, l, c);
    }
    FirstPassAgrees(inst, p, a', b', 4);
    PlacesCoverMemory(inst, PassUpTo(inst, p, a', 0, 4), PassUpTo(inst, p, b', 0, 4));
    LaterPassesAgree(inst, p, a', b', inst.passes);
  }

  lemma {:induction false} LaterPassesAgree(inst: Instance, p: Primitives, a: seq<Block>, b: seq<Block>, passes: U32)
    requires WellFormed(inst) && |a| == inst.memoryBlocks == |b| && passes >= 1
    requires PassUpTo(inst, p, a, 0, 4) == PassUpTo(inst, p, b, 0, 4)
    ensures FillUpTo(inst, p, a, passes) == FillUpTo(inst, p, b, passes)
    decreases passes
  {
    hide PassUpTo;
    if passes > 1 {
      LaterPassesAgree(inst, p, a, b, passes - 1);
    } else {
      assert FillUpTo(inst, p, a, 0) == a && FillUpTo(inst, p, b, 0) == b;
    }
  }

  /** The last blocks of the first lanes, XORed. */
  function LastBlocks(inst: Instance, p: Primitives, mem: seq<Block>, lanes: nat): Block
    requires WellFormed(inst) && |mem| == inst.memoryBlocks && 1 <= lanes <= inst.lanes
  {
    var last := At(inst, mem, lanes - 1, inst.laneLength - 1);
    if lanes == 1 then last else p.xor(LastBlocks(inst, p, mem, lanes - 1), last)
  }

  /** finalize, without the release of the memory. */
  method Finalize(inst: Instance, p: Primitives, memory: array<Block>) returns (tag: seq<Byte>)
    requires WellFormed(inst) && memory.Length == inst.memoryBlocks
    ensures tag == p.tag(LastBlocks(inst, p, memory[..], inst.lanes))
  {
    OffsetRoundTrip(inst, 0, inst.laneLength - 1);
    var blockhash := memory[inst.laneLength - 1];
    var l: U32 := 1;
    while l < inst.lanes
      invariant 1 <= l <= inst.lanes
      invariant blockhash == LastBlocks(inst, p, memory[..], l)
    {
      OffsetRoundTrip(inst, l, inst.laneLength - 1);
      blockhash := p.xor(blockhash, memory[Wrap32(l * inst.laneLength + (inst.laneLength - 1))]);
      l := l + 1;
    }
    tag := p.tag(blockhash);
  }

  /** The tag every correct implementation computes. */
  function Tag(inst: Instance, p: Primitives): seq<Byte>
    requires WellFormed(inst)
  {
    p.tag(LastBlocks(inst, p, Filled(inst, p, seq(inst.memoryBlocks, _ => ZERO)), inst.lanes))
  }

  /** argon2_ctx: validation, layout, filling by one thread or several under any scheduler, and the tag, in memory of
      arbitrary content. No kind stands for an argon2_type outside the enumeration. */
  method Argon2Ctx(ctx: Context, kind: Option<Kind>, p: Primitives, garbage: nat -> Block, choose: nat -> Action)
    returns (code: Code, tag: seq<Byte>)
    ensures code == if !ValidateInputs(ctx).OK? then ValidateInputs(ctx) else if kind.None? then IncorrectType else OK
    ensures code.OK? ==> WellFormed(MakeInstance(ctx, kind.value)) && tag == Tag(MakeInstance(ctx, kind.value), p)
  {
    code, tag := ValidateInputs(ctx), [];
    if !code.OK? {
      return;
    }
    if kind.None? {
      return IncorrectType, [];
    }
    AlignmentIsWellFormed(ctx, kind.value);
    var inst := MakeInstance(ctx, kind.value);
    hide WellFormed, MakeInstance, ValidateInputs;
    var memory := new Block[inst.memoryBlocks](garbage);
    ghost var before := memory[..];
    FillFirstBlocks(inst, p, memory);
    FillMemoryBlocks(inst, p, memory, choose);
    FillIgnoresGarbage(inst, p, before, seq(inst.memoryBlocks, _ => ZERO));
    tag := Finalize(inst, p, memory);
  }

  /** With several threads the tag is the same, for every schedule and whatever the memory held. */
  lemma TagIgnoresSchedule(inst: Instance, p: Primitives, garbage: seq<Block>, schedule: seq<Action>)
    requires WellFormed(inst) && |garbage| == inst.memoryBlocks && inst.passes >= 1
    ensures var start := FirstBlocksUpTo(inst, p, garbage, inst.lanes);
            && Invariant(inst, p, start, Init(inst, start))
            && var r := Run(inst, p, start, Init(inst, start), schedule);
               r.Some? && r.value.phase.Finished? ==>
                 p.tag(LastBlocks(inst, p, r.value.mem, inst.lanes)) == Tag(inst, p)
  {
    hide WellFormed;
    EveryScheduleIsSequential(inst, p, FirstBlocksUpTo(inst, p, garbage, inst.lanes), schedule);
    FillIgnoresGarbage(inst, p, garbage, seq(inst.memoryBlocks, _ => ZERO));
  }

  ghost predicate SameButThreads(a: Instance, b: Instance) {
    WellFormed(a) && WellFormed(b) && b == a.(threads := b.threads)
  }

  lemma BlockIgnoresThreads(a: Instance, b: Instance, p: Primitives, mem: seq<Block>, pos: Position, index: nat)
    requires SameButThreads(a, b) && ValidPosition(a, pos) && |mem| == a.memoryBlocks
    requires StartIndex(pos) <= index < a.segmentLength
    ensures WriteBlock(a, p, mem, pos, index) == WriteBlock(b, p, mem, pos, index)
  {
    hide FillBlock, High32, Wrap32, Wrap64, FourSegments;
    assert PrevOffset(a, pos, index) == PrevOffset(b, pos, index);
    assert CurrOffset(a, pos, index) == CurrOffset(b, pos, index);
    var j := PseudoRand(a, p, mem, pos, index);
    assert j == PseudoRand(b, p, mem, pos, index);
    assert RefLane(a, pos, j) == RefLane(b, pos, j) && RefColumn(a, pos, index, j) == RefColumn(b, pos, index, j);
  }

  lemma {:induction false} SegmentIgnoresThreads(a: Instance, b: Instance, p: Primitives, mem: seq<Block>,
                                                 pos: Position, index: nat)
    requires SameButThreads(a, b) && ValidPosition(a, pos) && |mem| == a.memoryBlocks && index <= a.segmentLength
    ensures SegmentUpTo(a, p, mem, pos, index) == SegmentUpTo(b, p, mem, pos, index)
  {
    if index > StartIndex(pos) {
      SegmentIgnoresThreads(a, b, p, mem, pos, index - 1);
      BlockIgnoresThreads(a, b, p, SegmentUpTo(a, p, mem, pos, index - 1), pos, index - 1);
    }
  }

  lemma {:induction false} SliceIgnoresThreads(a: Instance, b: Instance, p: Primitives, mem: seq<Block>, pass: U32,
                                               slice: nat, lanes: nat)
    requires SameButThreads(a, b) && |mem| == a.memoryBlocks && slice < 4 && lanes <= a.lanes
    ensures SliceUpTo(a, p, mem, pass, slice, lanes) == SliceUpTo(b, p, mem, pass, slice, lanes)
  {
    if lanes > 0 {
      SliceIgnoresThreads(a, b, p, mem, pass, slice, lanes - 1);
      SegmentIgnoresThreads(a, b, p, SliceUpTo(a, p, mem, pass, slice, lanes - 1), Position(pass, slice, lanes - 1),
                            a.segmentLength);
    }
  }

  lemma {:induction false} PassIgnoresThreads(a: Instance, b: Instance, p: Primitives, mem: seq<Block>, pass: U32,
                                              slices: nat)
    requires SameButThreads(a, b) && |mem| == a.memoryBlocks && slices <= 4
    ensures PassUpTo(a, p, mem, pass, slices) == PassUpTo(b, p, mem, pass, slices)
  {
    if slices > 0 {
      PassIgnoresThreads(a, b, p, mem, pass, slices - 1);
      SliceIgnoresThreads(a, b, p, PassUpTo(a, p, mem, pass, slices - 1), pass, slices - 1, a.lanes);
    }
  }

  lemma {:induction false} FillIgnoresThreads(a: Instance, b: Instance, p: Primitives, mem: seq<Block>, passes: U32)
    requires SameButThreads(a, b) && |mem| == a.memoryBlocks
    ensures FillUpTo(a, p, mem, passes) == FillUpTo(b, p, mem, passes)
    decreases passes
  {
    hide WellFormed, PassUpTo;
    if passes > 0 {
      FillIgnoresThreads(a, b, p, mem, passes - 1);
      var before := FillUpTo(a, p, mem, passes - 1);
      PassIgnoresThreads(a, b, p, before, passes - 1, 4);
      assert FillUpTo(a, p, mem, passes) == PassUpTo(a, p, before, passes - 1, 4);
    }
  }

  lemma {:induction false} FirstBlocksIgnoreThreads(a: Instance, b: Instance, p: Primitives, mem: seq<Block>,
                                                    lanes: nat)
    requires SameButThreads(a, b) && |mem| == a.memoryBlocks && lanes <= a.lanes
    ensures FirstBlocksUpTo(a, p, mem, lanes) == FirstBlocksUpTo(b, p, mem, lanes)
  {
    if lanes > 0 {
      FirstBlocksIgnoreThreads(a, b, p, mem, lanes - 1);
    }
  }

  lemma {:induction false} LastBlocksIgnoreThreads(a: Instance, b: Instance, p: Primitives, mem: seq<Block>, lanes: nat)
    requires SameButThreads(a, b) && |mem| == a.memoryBlocks && 1 <= lanes <= a.lanes
    ensures LastBlocks(a, p, mem, lanes) == LastBlocks(b, p, mem, lanes)
  {
    if lanes > 1 {
      LastBlocksIgnoreThreads(a, b, p, mem, lanes - 1);
    }
  }

  /** The thread limit changes nothing but the schedule. */
  lemma TagIgnoresThreads(a: Instance, b: Instance, p: Primitives)
    requires SameButThreads(a, b)
    ensures Tag(a, p) == Tag(b, p)
  {
    var zero: seq<Block> := seq(a.memoryBlocks, _ => ZERO);
    FirstBlocksIgnoreThreads(a, b, p, zero, a.lanes);
    FillIgnoresThreads(a, b, p, FirstBlocksUpTo(a, p, zero, a.lanes), a.passes);
    LastBlocksIgnoreThreads(a, b, p, Filled(a, p, zero), a.lanes);
  }
}
