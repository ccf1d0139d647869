/** Which earlier block a new block refers to: the modular arithmetic of index_alpha against the
    ordered set W of section 3.4.2 of RFC 9106. */
module Argon2Index {
  import opened Arithmetic
  import opened Words
  import opened Argon2Context

  /** reference_area_size in 32-bit arithmetic. */
  function ReferenceArea(inst: Instance, pass: U32, slice: nat, index: U32, sameLane: bool): U32 {
    var minusFirst := if index == 0 then -1 else 0;
    if pass == 0 then
      if slice == 0 then Wrap32(index - 1)
      else if sameLane then Wrap32(slice * inst.segmentLength + index - 1)
      else Wrap32(slice * inst.segmentLength + minusFirst)
    else if sameLane then Wrap32(inst.laneLength - inst.segmentLength + index - 1)
    else Wrap32(inst.laneLength - inst.segmentLength + minusFirst)
  }

  /** relative_position in 64-bit arithmetic. */
  function RelativePosition(area: U32, pseudoRand: U32): U64 {
    FromEnd(area, High32(Wrap64(pseudoRand * pseudoRand)))
  }

  function FromEnd(area: U32, x: nat): U64 {
    Wrap64(Wrap32(area - 1) - High32(Wrap64(area * x)))
  }

  /** start_position in 32-bit arithmetic. */
  function StartPosition(inst: Instance, pass: U32, slice: nat): U32 {
    if pass == 0 || slice == 3 then 0 else Wrap32((slice + 1) * inst.segmentLength)
  }

  /** The reference column, computed in the widths of the C function. */
  function IndexAlpha(inst: Instance, pass: U32, slice: nat, index: U32, pseudoRand: U32, sameLane: bool): U32
    requires inst.laneLength != 0
  {
    Wrap64(StartPosition(inst, pass, slice)
           + RelativePosition(ReferenceArea(inst, pass, slice, index, sameLane), pseudoRand)) % inst.laneLength
  }

  /** Columns lo, lo+1, ..., hi-1. */
  function Columns(lo: nat, hi: nat): (s: seq<nat>)
    requires lo <= hi
  {
    seq(hi - lo, k requires 0 <= k => lo + k)
  }

  /** First column of a segment. */
  function SegmentStart(inst: Instance, s: nat): nat {
    if s == 0 then 0
    else if s == 1 then inst.segmentLength
    else if s == 2 then 2 * inst.segmentLength
    else 3 * inst.segmentLength
  }

  lemma SegmentStartIsProduct(inst: Instance, s: nat)
    requires s < 4
    ensures s * inst.segmentLength == SegmentStart(inst, s)
  {
  }

  function SegmentColumns(inst: Instance, s: nat): seq<nat> {
    Columns(SegmentStart(inst, s), SegmentStart(inst, s) + inst.segmentLength)
  }

  /** Finished segments of a lane, oldest first: all earlier ones in pass 0, the last three afterwards. */
  function FinishedColumns(inst: Instance, pass: nat, slice: nat): seq<nat> {
    if pass == 0 then Columns(0, SegmentStart(inst, slice))
    else SegmentColumns(inst, (slice + 1) % 4) + SegmentColumns(inst, (slice + 2) % 4)
         + SegmentColumns(inst, (slice + 3) % 4)
  }

  /** Finished columns, then in the own lane those of the current segment, before any exclusion. */
  function CandidateColumns(inst: Instance, pass: nat, slice: nat, index: nat, sameLane: bool): seq<nat> {
    FinishedColumns(inst, pass, slice)
    + (if sameLane then Columns(SegmentStart(inst, slice), SegmentStart(inst, slice) + index) else [])
  }

  /** The set W of section 3.4.2: the previous block is excluded in the own lane; in another lane
      the last element is excluded for the first block of a segment. */
  function ReferenceSet(inst: Instance, pass: nat, slice: nat, index: nat, sameLane: bool): seq<nat>
    requires CandidateColumns(inst, pass, slice, index, sameLane) != []
  {
    var all := CandidateColumns(inst, pass, slice, index, sameLane);
    if sameLane || index == 0 then all[..|all| - 1] else all
  }

  /** Positions fill_segment reaches: the first two blocks of each lane are given, and the first
      slice of the first pass refers to its own lane only. */
  ghost predicate Reachable(inst: Instance, pass: nat, slice: nat, index: nat, sameLane: bool) {
    && pass < 0x1_0000_0000
    && slice < 4
    && index < inst.segmentLength
    && (pass == 0 && slice == 0 ==> 2 <= index && sameLane)
  }

  function CandidateCount(inst: Instance, pass: nat, slice: nat, index: nat, sameLane: bool): nat {
    (if pass == 0 then SegmentStart(inst, slice) else 3 * inst.segmentLength) + (if sameLane then index else 0)
  }

  /** Where the oldest candidate lies. */
  function OldestColumn(inst: Instance, pass: nat, slice: nat): nat {
    if pass == 0 || slice == 3 then 0 else SegmentStart(inst, slice + 1)
  }

  /** From the second pass on, the three finished segments follow each other cyclically. */
  lemma FinishedIsCyclic(inst: Instance, slice: nat)
    requires FourSegments(inst) && slice < 4
    ensures |FinishedColumns(inst, 1, slice)| == 3 * inst.segmentLength
    ensures forall z :: 0 <= z < 3 * inst.segmentLength ==>
      FinishedColumns(inst, 1, slice)[z] ==
        var c := OldestColumn(inst, 1, slice) + z; if c < inst.laneLength then c else c - inst.laneLength
  {
    var seg := inst.segmentLength;
    if slice == 0 {
      ThreeRuns(seg, 2 * seg, 3 * seg, seg);
    } else if slice == 1 {
      ThreeRuns(2 * seg, 3 * seg, 0, seg);
    } else if slice == 2 {
      ThreeRuns(3 * seg, 0, seg, seg);
    } else {
      ThreeRuns(0, seg, 2 * seg, seg);
    }
  }

  lemma ThreeRuns(a: nat, b: nat, c: nat, n: nat)
    ensures var s := Columns(a, a + n) + Columns(b, b + n) + Columns(c, c + n);
            && |s| == 3 * n
            && (forall z :: 0 <= z < n ==> s[z] == a + z)
            && (forall z :: n <= z < 2 * n ==> s[z] == b + z - n)
            && (forall z :: 2 * n <= z < 3 * n ==> s[z] == c + z - 2 * n)
  {
  }

  /** Closed form of the candidates: they follow each other cyclically from the oldest column. */
  lemma CandidatesAreCyclic(inst: Instance, pass: nat, slice: nat, index: nat, sameLane: bool)
    requires FourSegments(inst) && Reachable(inst, pass, slice, index, sameLane)
    ensures |CandidateColumns(inst, pass, slice, index, sameLane)| == CandidateCount(inst, pass, slice, index, sameLane)
    ensures forall z :: 0 <= z < CandidateCount(inst, pass, slice, index, sameLane) ==>
      CandidateColumns(inst, pass, slice, index, sameLane)[z] ==
        var c := OldestColumn(inst, pass, slice) + z; if c < inst.laneLength then c else c - inst.laneLength
  {
    if pass > 0 {
      FinishedIsCyclic(inst, slice);
      assert FinishedColumns(inst, pass, slice) == FinishedColumns(inst, 1, slice);
    }
  }

  lemma ModOnce(a: nat, m: nat)
    requires 0 < m && a < 2 * m
    ensures a % m == if a < m then a else a - m
  {
    if a >= m {
      assert a == m + (a - m);
      assert (a - m) % m == a - m;
    }
  }

  /** Scaling by a 32-bit fraction stays below the area and within 64 bits. */
  lemma ScaledBelow(area: U32, x: U32)
    ensures 0 <= area * x < 0x1_0000_0000_0000_0000
    ensures 0 < area ==> 0 <= High32(area * x) < area
  {
    MulMono(area, 0, x);
    MulMono(area, x, 0xFFFF_FFFF);
  }

  lemma SquareFits(j1: U32)
    ensures High32(Wrap64(j1 * j1)) == High32(j1 * j1) < 0x1_0000_0000
  {
    ScaledBelow(j1, j1);
  }

  lemma FromEndClosedForm(area: U32, x: U32)
    requires 1 <= area
    ensures 0 <= High32(area * x) < area && FromEnd(area, x) == area - 1 - High32(area * x)
  {
    ScaledBelow(area, x);
    FromEndOf(area, area * x);
  }

  lemma FromEndOf(area: U32, product: nat)
    requires product < 0x1_0000_0000_0000_0000 && High32(product) < area
    ensures Wrap64(Wrap32(area - 1) - High32(Wrap64(product))) == area - 1 - High32(product)
  {
  }

  /** Section 3.4.2: x = J1^2 / 2^32, y = |W| * x / 2^32, and the block is W[|W| - 1 - y].
      The modular computation of the code yields exactly that element, and W is never empty. */
  lemma IndexAlphaIsRfc9106(inst: Instance, pass: U32, slice: nat, index: U32, j1: U32, sameLane: bool)
    requires FourSegments(inst) && Reachable(inst, pass, slice, index, sameLane)
    ensures CandidateColumns(inst, pass, slice, index, sameLane) != []
    ensures var w := ReferenceSet(inst, pass, slice, index, sameLane);
            var y := High32(|w| * High32(j1 * j1));
            && |w| > 0 && 0 <= y < |w|
            && IndexAlpha(inst, pass, slice, index, j1, sameLane) == w[|w| - 1 - y]
  {
    CandidatesAreCyclic(inst, pass, slice, index, sameLane);
    var w := ReferenceSet(inst, pass, slice, index, sameLane);
    IndexAlphaClosedForm(inst, pass, slice, index, j1, sameLane);
  }

  /** Size of W. */
  function AreaSize(inst: Instance, pass: nat, slice: nat, index: nat, sameLane: bool): int {
    CandidateCount(inst, pass, slice, index, sameLane) - (if sameLane || index == 0 then 1 else 0)
  }

  /** No intermediate value wraps: the code computes the plain integer expression. */
  lemma IndexAlphaClosedForm(inst: Instance, pass: U32, slice: nat, index: U32, j1: U32, sameLane: bool)
    requires FourSegments(inst) && Reachable(inst, pass, slice, index, sameLane)
    ensures var area := AreaSize(inst, pass, slice, index, sameLane);
            var y := High32(area * High32(j1 * j1));
            var c := OldestColumn(inst, pass, slice) + (area - 1 - y);
            && 0 <= y < area
            && IndexAlpha(inst, pass, slice, index, j1, sameLane)
               == if c < inst.laneLength then c else c - inst.laneLength
  {
    AreaFits(inst, pass, slice, index, sameLane);
    var area := AreaSize(inst, pass, slice, index, sameLane);
    RelativeClosedForm(area, j1);
    var y := High32(area * High32(j1 * j1));
    WrapPosition(OldestColumn(inst, pass, slice), area - 1 - y, inst.laneLength);
  }

  lemma WrapPosition(start: U32, relative: U32, laneLength: U32)
    requires start < laneLength && relative < laneLength
    ensures Wrap64(start + relative) % laneLength ==
            var c := start + relative; if c < laneLength then c else c - laneLength
  {
    ModOnce(start + relative, laneLength);
  }

  lemma RelativeClosedForm(area: U32, j1: U32)
    requires 1 <= area
    ensures var y := High32(area * High32(j1 * j1));
            0 <= y < area && RelativePosition(area, j1) == area - 1 - y
  {
    SquareFits(j1);
    FromEndClosedForm(area, High32(j1 * j1));
  }

  /** The 32-bit area and start are the plain ones, and the area is never empty. */
  lemma AreaFits(inst: Instance, pass: U32, slice: nat, index: U32, sameLane: bool)
    requires FourSegments(inst) && Reachable(inst, pass, slice, index, sameLane)
    ensures 1 <= AreaSize(inst, pass, slice, index, sameLane) < inst.laneLength
    ensures OldestColumn(inst, pass, slice) < inst.laneLength
    ensures ReferenceArea(inst, pass, slice, index, sameLane) == AreaSize(inst, pass, slice, index, sameLane)
    ensures StartPosition(inst, pass, slice) == OldestColumn(inst, pass, slice)
  {
    AreaFitsWidth(inst, pass, slice, index, sameLane);
    StartFits(inst, pass, slice);
    hide Wrap32;
  }

  lemma AreaFitsWidth(inst: Instance, pass: U32, slice: nat, index: U32, sameLane: bool)
    requires FourSegments(inst) && Reachable(inst, pass, slice, index, sameLane)
    ensures ReferenceArea(inst, pass, slice, index, sameLane) == AreaSize(inst, pass, slice, index, sameLane)
  {
    SegmentStartIsProduct(inst, slice);
    if pass == 0 {
      FirstPassArea(inst, SegmentStart(inst, slice), index);
    } else {
      LaterPassArea(inst, index);
    }
    hide Wrap32;
  }

  lemma LaterPassArea(inst: Instance, index: U32)
    requires FourSegments(inst) && index < inst.segmentLength
    ensures Wrap32(inst.laneLength - inst.segmentLength + index - 1) == 3 * inst.segmentLength + index - 1
    ensures Wrap32(inst.laneLength - inst.segmentLength + -1) == 3 * inst.segmentLength - 1
    ensures Wrap32(inst.laneLength - inst.segmentLength + 0) == 3 * inst.segmentLength
  {
  }

  lemma StartFits(inst: Instance, pass: U32, slice: nat)
    requires FourSegments(inst) && slice < 4
    ensures StartPosition(inst, pass, slice) == OldestColumn(inst, pass, slice) < inst.laneLength
  {
    if slice < 3 {
      SegmentStartIsProduct(inst, slice + 1);
    }
  }

  lemma FirstPassArea(inst: Instance, before: nat, index: U32)
    requires FourSegments(inst) && index < inst.segmentLength && before + inst.segmentLength <= inst.laneLength
    ensures before + index > 0 ==> Wrap32(before + index - 1) == before + index - 1
    ensures before > 0 ==> Wrap32(before + -1) == before - 1
    ensures Wrap32(before + 0) == before
  {
  }

  /** What the choice is for: inside a slice every lane reads only blocks no other lane is writing.
      In the own lane the block is neither the current nor the previous one, and in the current
      segment it is already computed; in another lane it is outside the slice being filled; in the
      first pass it is always a block of an earlier slice or an earlier one of this segment. */
  lemma ReferenceIsSafe(inst: Instance, pass: U32, slice: nat, index: U32, j1: U32, sameLane: bool)
    requires FourSegments(inst) && Reachable(inst, pass, slice, index, sameLane)
    ensures var col := IndexAlpha(inst, pass, slice, index, j1, sameLane);
            var first := SegmentStart(inst, slice);
            var current := first + index;
            && col < inst.laneLength
            && (sameLane ==> col != current && col != (current + inst.laneLength - 1) % inst.laneLength)
            && (sameLane && first <= col < first + inst.segmentLength ==> col < current)
            && (!sameLane ==> !(first <= col < first + inst.segmentLength))
            && (pass == 0 ==> col < if sameLane then current else first)
  {
    IndexAlphaClosedForm(inst, pass, slice, index, j1, sameLane);
    AreaFits(inst, pass, slice, index, sameLane);
    ModOnce(SegmentStart(inst, slice) + index + inst.laneLength - 1, inst.laneLength);
  }
}
