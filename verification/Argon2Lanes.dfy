/** Why the lanes of one slice may be filled in any order: each block write is a function of its own
    lane and of columns outside the slice. */
module Argon2Lanes {
  import opened Arithmetic
  import opened Words
  import opened Argon2Context
  import opened Argon2Index
  import opened Argon2Fill

  /** The block in a column of a lane. */
  function At(inst: Instance, mem: seq<Block>, lane: nat, col: nat): Block
    requires WellFormed(inst) && |mem| == inst.memoryBlocks && lane < inst.lanes && col < inst.laneLength
  {
    OffsetRoundTrip(inst, lane, col);
    mem[Offset(inst, lane, col)]
  }

  /** Distinct places have distinct offsets. */
  lemma OffsetInjective(inst: Instance, lane: nat, col: nat, lane': nat, col': nat)
    requires WellFormed(inst)
    requires lane < inst.lanes && col < inst.laneLength && lane' < inst.lanes && col' < inst.laneLength
    requires Offset(inst, lane, col) == Offset(inst, lane', col')
    ensures lane == lane' && col == col'
  {
    OffsetRoundTrip(inst, lane, col);
    OffsetRoundTrip(inst, lane', col');
  }

  /** Memories that agree at every place are equal: the places cover the whole array. */
  lemma PlacesCoverMemory(inst: Instance, a: seq<Block>, b: seq<Block>)
    requires WellFormed(inst) && |a| == inst.memoryBlocks == |b|
    requires forall l, c :: 0 <= l < inst.lanes && 0 <= c < inst.laneLength ==> At(inst, a, l, c) == At(inst, b, l, c)
    ensures a == b
  {
    forall o | 0 <= o < |a|
      ensures a[o] == b[o]
    {
      PlaceOf(inst, o);
      var l, c := o / inst.laneLength, o % inst.laneLength;
      assert At(inst, a, l, c) == At(inst, b, l, c);
    }
  }

  lemma PlaceOf(inst: Instance, o: nat)
    requires WellFormed(inst) && o < inst.memoryBlocks
    ensures 0 <= o / inst.laneLength < inst.lanes && 0 <= o % inst.laneLength < inst.laneLength
    ensures Offset(inst, o / inst.laneLength, o % inst.laneLength) == o
  {
    var n := inst.laneLength;
    DivModParts(o, n, inst.lanes);
  }

  lemma DivModParts(o: nat, n: nat, lanes: nat)
    requires 0 < n && o < lanes * n
    ensures 0 <= o / n < lanes && 0 <= o % n < n && (o / n) * n + o % n == o
  {
    if o / n >= lanes {
      MulMono(n, lanes, o / n);
    }
  }

  function SliceOf(inst: Instance, col: nat): (s: nat)
    requires FourSegments(inst) && col < inst.laneLength
    ensures s < 4 && InSlice(inst, s, col)
  {
    var n := inst.segmentLength;
    if col < n then 0 else if col < 2 * n then 1 else if col < 3 * n then 2 else 3
  }

  /** fill_segment reaches this index of a segment and writes this offset there. */
  ghost predicate Writes(inst: Instance, pos: Position, index: nat, o: nat) {
    ValidPosition(inst, pos) && StartIndex(pos) <= index < inst.segmentLength && CurrOffset(inst, pos, index) == o
  }

  /** The segments of a pass write a block unless it lies in columns 0 and 1 in pass 0, and none is written by two
      positions. */
  lemma WrittenOncePerPass(inst: Instance, pass: U32, o: nat)
    requires WellFormed(inst) && o < inst.memoryBlocks
    ensures (exists pos: Position, i: nat :: pos.pass == pass && Writes(inst, pos, i, o))
      <==> pass > 0 || o % inst.laneLength >= 2
    ensures forall pos: Position, i: nat, pos': Position, i': nat ::
      pos.pass == pass == pos'.pass && Writes(inst, pos, i, o) && Writes(inst, pos', i', o) ==> pos == pos' && i == i'
  {
    PlaceOf(inst, o);
    var lane, col := o / inst.laneLength, o % inst.laneLength;
    var slice := SliceOf(inst, col);
    if pass > 0 || col >= 2 {
      assert Writes(inst, Position(pass, slice, lane), col - SegmentStart(inst, slice), o);
    }
    forall pos: Position, i: nat | pos.pass == pass && Writes(inst, pos, i, o)
      ensures pos == Position(pass, slice, lane) && i == col - SegmentStart(inst, slice) && (pass > 0 || col >= 2)
    {
      WriterIs(inst, pos, i, o, lane, col);
    }
  }

  lemma WriterIs(inst: Instance, pos: Position, index: nat, o: nat, lane: nat, col: nat)
    requires Writes(inst, pos, index, o)
    requires lane < inst.lanes && col < inst.laneLength && o == Offset(inst, lane, col)
    ensures pos.lane == lane && pos.slice == SliceOf(inst, col) && index == col - SegmentStart(inst, pos.slice)
    ensures pos.pass > 0 || col >= 2
  {
    ColumnInLane(inst, pos, index);
    OffsetInjective(inst, pos.lane, Column(inst, pos, index), lane, col);
    hide Offset;
  }

  /** fill_first_blocks writes exactly columns 0 and 1 of every lane, and changes nothing else. */
  lemma {:induction false} FirstBlocksAt(inst: Instance, p: Primitives, mem: seq<Block>, lanes: nat, l: nat, c: nat)
    requires WellFormed(inst) && |mem| == inst.memoryBlocks && lanes <= inst.lanes && l < inst.lanes
    requires c < inst.laneLength
    ensures At(inst, FirstBlocksUpTo(inst, p, mem, lanes), l, c)
         == if l < lanes && c < 2 then p.firstBlock(c, l) else At(inst, mem, l, c)
  {
    if lanes > 0 {
      FirstBlocksAt(inst, p, mem, lanes - 1, l, c);
      FirstBlocksStep(inst, p, mem, lanes, l, c);
    }
  }

  lemma FirstBlocksStep(inst: Instance, p: Primitives, mem: seq<Block>, lanes: nat, l: nat, c: nat)
    requires WellFormed(inst) && |mem| == inst.memoryBlocks && 0 < lanes <= inst.lanes && l < inst.lanes
    requires c < inst.laneLength
    ensures At(inst, FirstBlocksUpTo(inst, p, mem, lanes), l, c)
         == if l == lanes - 1 && c < 2 then p.firstBlock(c, l)
           else At(inst, FirstBlocksUpTo(inst, p, mem, lanes - 1), l, c)
  {
    OffsetRoundTrip(inst, lanes - 1, 0);
    OffsetRoundTrip(inst, lanes - 1, 1);
    OffsetRoundTrip(inst, l, c);
    if Offset(inst, l, c) == Offset(inst, lanes - 1, 0) {
      OffsetInjective(inst, l, c, lanes - 1, 0);
    }
    if Offset(inst, l, c) == Offset(inst, lanes - 1, 1) {
      OffsetInjective(inst, l, c, lanes - 1, 1);
    }
  }

  /** So in pass 0 every block is written exactly once: by fill_first_blocks where no segment of the pass
      writes, which is in columns 0 and 1, and by one segment everywhere else. */
  lemma FirstPassWritesEverything(inst: Instance, p: Primitives, mem: seq<Block>, o: nat)
    requires WellFormed(inst) && |mem| == inst.memoryBlocks && o < inst.memoryBlocks
    ensures 0 <= o / inst.laneLength < inst.lanes && 0 <= o % inst.laneLength
    ensures FirstBlocksUpTo(inst, p, mem, inst.lanes)[o]
         == if exists pos: Position, i: nat :: pos.pass == 0 && Writes(inst, pos, i, o) then mem[o]
            else p.firstBlock(o % inst.laneLength, o / inst.laneLength)
  {
    PlaceOf(inst, o);
    WrittenOncePerPass(inst, 0, o);
    FirstBlocksAt(inst, p, mem, inst.lanes, o / inst.laneLength, o % inst.laneLength);
    hide FirstBlocksUpTo, Writes, WellFormed;
  }

  /** A block write changes exactly one place. */
  lemma WriteEffect(inst: Instance, p: Primitives, mem: seq<Block>, pos: Position, index: nat, l: nat, c: nat)
    requires ValidPosition(inst, pos) && |mem| == inst.memoryBlocks
    requires StartIndex(pos) <= index < inst.segmentLength
    requires l < inst.lanes && c < inst.laneLength
    ensures At(inst, WriteBlock(inst, p, mem, pos, index), l, c)
         == if l == pos.lane && c == Column(inst, pos, index) then NewBlock(inst, p, mem, pos, index)
            else At(inst, mem, l, c)
  {
    hide NewBlock;
    ColumnInLane(inst, pos, index);
    OffsetRoundTrip(inst, l, c);
    if Offset(inst, l, c) == CurrOffset(inst, pos, index) {
      OffsetInjective(inst, l, c, pos.lane, Column(inst, pos, index));
    }
  }

  predicate InSlice(inst: Instance, slice: nat, col: nat) {
    SegmentStart(inst, slice) <= col < SegmentStart(inst, slice) + inst.segmentLength
  }

  /** Every place a block write of this lane may read: its own lane, and columns outside the slice. */
  ghost predicate AgreeFor(inst: Instance, a: seq<Block>, b: seq<Block>, slice: nat, lane: nat)
    requires WellFormed(inst) && |a| == inst.memoryBlocks == |b|
  {
    forall l, c :: 0 <= l < inst.lanes && 0 <= c < inst.laneLength && (l == lane || !InSlice(inst, slice, c)) ==>
      At(inst, a, l, c) == At(inst, b, l, c)
  }

  lemma NewBlockAgrees(inst: Instance, p: Primitives, a: seq<Block>, b: seq<Block>, pos: Position, index: nat)
    requires ValidPosition(inst, pos) && |a| == inst.memoryBlocks == |b|
    requires StartIndex(pos) <= index < inst.segmentLength
    requires AgreeFor(inst, a, b, pos.slice, pos.lane)
    ensures NewBlock(inst, p, a, pos, index) == NewBlock(inst, p, b, pos, index)
  {
    hide FillBlock, Offset, AddressBlock, InputBlock, IndexAlpha, High32, Wrap32;
    ColumnInLane(inst, pos, index);
    assert At(inst, a, pos.lane, PrevColumn(inst, pos, index)) == At(inst, b, pos.lane, PrevColumn(inst, pos, index));
    assert At(inst, a, pos.lane, Column(inst, pos, index)) == At(inst, b, pos.lane, Column(inst, pos, index));
    var j := PseudoRand(inst, p, a, pos, index);
    assert j == PseudoRand(inst, p, b, pos, index);
    var lane, col := RefLane(inst, pos, j), RefColumn(inst, pos, index, j);
    ReferenceIsSafe(inst, pos.pass, pos.slice, index, Wrap32(j), lane == pos.lane);
    assert At(inst, a, lane, col) == At(inst, b, lane, col);
  }

  /** Filling part of a segment changes only that part. */
  lemma {:induction false} SegmentFrame(inst: Instance, p: Primitives, mem: seq<Block>, pos: Position, index: nat,
                                        l: nat, c: nat)
    requires ValidPosition(inst, pos) && |mem| == inst.memoryBlocks && index <= inst.segmentLength
    requires l < inst.lanes && c < inst.laneLength && (l != pos.lane || !InSlice(inst, pos.slice, c))
    ensures At(inst, SegmentUpTo(inst, p, mem, pos, index), l, c) == At(inst, mem, l, c)
  {
    hide WriteBlock, At;
    if index > StartIndex(pos) {
      SegmentFrame(inst, p, mem, pos, index - 1, l, c);
      WriteEffect(inst, p, SegmentUpTo(inst, p, mem, pos, index - 1), pos, index - 1, l, c);
    }
  }

  /** Indices reached by the lanes of one slice. */
  ghost predicate ValidProgress(inst: Instance, pass: U32, slice: nat, progress: seq<nat>)
    requires WellFormed(inst)
  {
    && slice < 4 && |progress| == inst.lanes
    && forall l :: 0 <= l < inst.lanes ==> StartIndex(Position(pass, slice, l)) <= progress[l] <= inst.segmentLength
  }

  /** Memory in the middle of a slice: every lane looks as if it had run alone from the slice's start. */
  ghost predicate LanesAlone(inst: Instance, p: Primitives, start: seq<Block>, mem: seq<Block>,
                             pass: U32, slice: nat, progress: seq<nat>)
    requires WellFormed(inst) && |start| == inst.memoryBlocks == |mem| && ValidProgress(inst, pass, slice, progress)
  {
    forall l, c :: 0 <= l < inst.lanes && 0 <= c < inst.laneLength ==>
      At(inst, mem, l, c) == At(inst, SegmentUpTo(inst, p, start, Position(pass, slice, l), progress[l]), l, c)
  }

  /** Any lane may take the next step; the step writes what the lane would write alone. */
  lemma StepKeepsLanesAlone(inst: Instance, p: Primitives, start: seq<Block>, mem: seq<Block>,
                            pass: U32, slice: nat, progress: seq<nat>, lane: nat)
    requires WellFormed(inst) && |start| == inst.memoryBlocks == |mem| && ValidProgress(inst, pass, slice, progress)
    requires LanesAlone(inst, p, start, mem, pass, slice, progress)
    requires lane < inst.lanes && progress[lane] < inst.segmentLength
    ensures LanesAlone(inst, p, start, WriteBlock(inst, p, mem, Position(pass, slice, lane), progress[lane]),
                       pass, slice, progress[lane := progress[lane] + 1])
  {
    hide At, NewBlock, WriteBlock, InSlice, Column;
    var pos, i := Position(pass, slice, lane), progress[lane];
    var alone := SegmentUpTo(inst, p, start, pos, i);
    assert SegmentUpTo(inst, p, start, pos, i + 1) == WriteBlock(inst, p, alone, pos, i);
    assert AgreeFor(inst, mem, alone, slice, lane) by {
      forall l, c | 0 <= l < inst.lanes && 0 <= c < inst.laneLength && (l == lane || !InSlice(inst, slice, c))
        ensures At(inst, mem, l, c) == At(inst, alone, l, c)
      {
        if l != lane {
          SegmentFrame(inst, p, start, Position(pass, slice, l), progress[l], l, c);
          SegmentFrame(inst, p, start, pos, i, l, c);
        }
      }
    }
    NewBlockAgrees(inst, p, mem, alone, pos, i);
    forall l, c | 0 <= l < inst.lanes && 0 <= c < inst.laneLength
      ensures At(inst, WriteBlock(inst, p, mem, pos, i), l, c)
           == At(inst, SegmentUpTo(inst, p, start, Position(pass, slice, l), if l == lane then i + 1 else progress[l]),
                 l, c)
    {
      WriteEffect(inst, p, mem, pos, i, l, c);
      WriteEffect(inst, p, alone, pos, i, l, c);
    }
  }

  /** A lane running on its own to some index, from the middle of a slice. */
  lemma {:induction false} SegmentKeepsLanesAlone(inst: Instance, p: Primitives, start: seq<Block>, mem: seq<Block>,
                            pass: U32, slice: nat, progress: seq<nat>, lane: nat, index: nat)
    requires WellFormed(inst) && |start| == inst.memoryBlocks == |mem| && ValidProgress(inst, pass, slice, progress)
    requires LanesAlone(inst, p, start, mem, pass, slice, progress)
    requires lane < inst.lanes
    requires progress[lane] == StartIndex(Position(pass, slice, lane)) <= index <= inst.segmentLength
    ensures LanesAlone(inst, p, start, SegmentUpTo(inst, p, mem, Position(pass, slice, lane), index),
                       pass, slice, progress[lane := index])
  {
    hide LanesAlone, WriteBlock;
    if index == progress[lane] {
      assert progress[lane := index] == progress;
    } else {
      SegmentKeepsLanesAlone(inst, p, start, mem, pass, slice, progress, lane, index - 1);
      var mem' := SegmentUpTo(inst, p, mem, Position(pass, slice, lane), index - 1);
      StepKeepsLanesAlone(inst, p, start, mem', pass, slice, progress[lane := index - 1], lane);
      assert progress[lane := index - 1][lane := index] == progress[lane := index];
    }
  }

  /** Progress when the first n lanes are done and the others have not started. */
  function LanesDone(inst: Instance, pass: U32, slice: nat, n: nat): (r: seq<nat>) {
    var full: nat, start: nat := inst.segmentLength, StartIndex(Position(pass, slice, 0));
    seq(inst.lanes, l => if l < n then full else start)
  }

  /** Before any lane has run, each looks as at the start. */
  lemma NoLaneRun(inst: Instance, p: Primitives, start: seq<Block>, pass: U32, slice: nat)
    requires WellFormed(inst) && |start| == inst.memoryBlocks && slice < 4
    ensures ValidProgress(inst, pass, slice, LanesDone(inst, pass, slice, 0))
    ensures SliceUpTo(inst, p, start, pass, slice, 0) == start
    ensures LanesAlone(inst, p, start, start, pass, slice, LanesDone(inst, pass, slice, 0))
  {
    hide At, WriteBlock;
  }

  lemma {:induction false} SequentialIsLanesAlone(inst: Instance, p: Primitives, start: seq<Block>, pass: U32,
                                                  slice: nat, n: nat)
    requires WellFormed(inst) && |start| == inst.memoryBlocks && slice < 4 && n <= inst.lanes
    ensures ValidProgress(inst, pass, slice, LanesDone(inst, pass, slice, n))
    ensures LanesAlone(inst, p, start, SliceUpTo(inst, p, start, pass, slice, n), pass, slice,
                       LanesDone(inst, pass, slice, n))
  {
    hide At, WriteBlock, WellFormed, SliceUpTo;
    if n == 0 {
      NoLaneRun(inst, p, start, pass, slice);
    } else {
      SequentialIsLanesAlone(inst, p, start, pass, slice, n - 1);
      hide LanesAlone;
      SegmentKeepsLanesAlone(inst, p, start, SliceUpTo(inst, p, start, pass, slice, n - 1), pass, slice,
                             LanesDone(inst, pass, slice, n - 1), n - 1, inst.segmentLength);
      assert LanesDone(inst, pass, slice, n - 1)[n - 1 := inst.segmentLength] == LanesDone(inst, pass, slice, n);
      LaneAppended(inst, p, start, pass, slice, n);
    }
  }

  lemma LaneAppended(inst: Instance, p: Primitives, start: seq<Block>, pass: U32, slice: nat, n: nat)
    requires WellFormed(inst) && |start| == inst.memoryBlocks && slice < 4 && 0 < n <= inst.lanes
    ensures SliceUpTo(inst, p, start, pass, slice, n)
         == SegmentUpTo(inst, p, SliceUpTo(inst, p, start, pass, slice, n - 1), Position(pass, slice, n - 1),
                        inst.segmentLength)
  {
    hide SegmentUpTo;
  }

  /** However the lanes interleaved, a finished slice is the one the sequential loop leaves. */
  lemma FinishedSliceIsSequential(inst: Instance, p: Primitives, start: seq<Block>, mem: seq<Block>, pass: U32,
                                  slice: nat)
    requires WellFormed(inst) && |start| == inst.memoryBlocks == |mem| && slice < 4
    requires ValidProgress(inst, pass, slice, LanesDone(inst, pass, slice, inst.lanes))
    requires LanesAlone(inst, p, start, mem, pass, slice, LanesDone(inst, pass, slice, inst.lanes))
    ensures mem == SliceUpTo(inst, p, start, pass, slice, inst.lanes)
  {
    hide At;
    SequentialIsLanesAlone(inst, p, start, pass, slice, inst.lanes);
    PlacesCoverMemory(inst, mem, SliceUpTo(inst, p, start, pass, slice, inst.lanes));
  }
}
