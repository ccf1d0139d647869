/** fill_memory_blocks_mt as a transition system: the main thread creates and joins one thread per lane
    and slice, and every thread writes its segment block by block, interleaved in any order. */
module Argon2Threads {
  import opened Wrappers
  import opened Words
  import opened Argon2Context
  import opened Argon2Index
  import opened Argon2Fill
  import opened Argon2Lanes

  /** A lane's thread in the current slice; Running carries the next index. */
  datatype ThreadState = NotCreated | Running(index: nat) | Exited | Joined

  /** Where the main thread is: before the limit check for lane l, about to create lane l's thread,
      joining the remaining threads from lane l on, or done. */
  datatype Phase = Launching(l: nat) | Creating(l: nat) | Draining(l: nat) | Finished

  datatype State = State(mem: seq<Block>, pass: U32, slice: nat, phase: Phase, threads: seq<ThreadState>)

  /** Steps of the main thread, then the two of a lane thread. A join returns only once its thread exited. */
  datatype Action =
    | UnderLimit | JoinOldest | CreateThread | LaunchDone | JoinNext | SliceDone
    | Write(lane: nat) | Exit(lane: nat)

  function Idle(n: nat): (r: seq<ThreadState>)
    ensures |r| == n && forall l :: 0 <= l < n ==> r[l] == NotCreated
  {
    seq(n, _ => NotCreated)
  }

  /** Head of the slice loop: the next slice, the next pass, or the end. */
  function EnterSlice(inst: Instance, mem: seq<Block>, pass: U32, slice: nat): State {
    if pass == inst.passes then State(mem, pass, 0, Finished, [])
    else State(mem, pass, slice, Launching(0), Idle(inst.lanes))
  }

  function Init(inst: Instance, mem: seq<Block>): State {
    EnterSlice(inst, mem, 0, 0)
  }

  ghost predicate Shape(inst: Instance, s: State) {
    && WellFormed(inst)
    && |s.mem| == inst.memoryBlocks
    && (!s.phase.Finished? ==>
      && s.pass < inst.passes && s.slice < 4 && |s.threads| == inst.lanes
      && s.phase.l <= inst.lanes && (s.phase.Creating? ==> s.phase.l < inst.lanes)
      && (forall k :: 0 <= k < inst.lanes && s.threads[k].Running? ==>
        StartIndex(Position(s.pass, s.slice, k)) <= s.threads[k].index <= inst.segmentLength))
  }

  /** The step an action takes, or None when it cannot be taken in this state. */
  function Step(inst: Instance, p: Primitives, s: State, a: Action): (r: Option<State>)
    requires Shape(inst, s)
  {
    if s.phase.Finished? then None
    else match a
      case UnderLimit =>
        if s.phase.Launching? && s.phase.l < inst.lanes && s.phase.l < inst.threads
        then Some(s.(phase := Creating(s.phase.l))) else None
      case JoinOldest =>
        if s.phase.Launching? && inst.threads <= s.phase.l < inst.lanes && s.threads[s.phase.l - inst.threads].Exited?
        then Some(s.(phase := Creating(s.phase.l), threads := s.threads[s.phase.l - inst.threads := Joined])) else None
      case CreateThread =>
        if s.phase.Creating?
        then Some(s.(phase := Launching(s.phase.l + 1),
                     threads := s.threads[s.phase.l := Running(StartIndex(Position(s.pass, s.slice, s.phase.l)))]))
        else None
      case LaunchDone =>
        if s.phase == Launching(inst.lanes) then Some(s.(phase := Draining(inst.lanes - inst.threads))) else None
      case JoinNext =>
        if s.phase.Draining? && s.phase.l < inst.lanes && s.threads[s.phase.l].Exited?
        then Some(s.(phase := Draining(s.phase.l + 1), threads := s.threads[s.phase.l := Joined])) else None
      case SliceDone =>
        if s.phase == Draining(inst.lanes)
        then Some(if s.slice == 3 then EnterSlice(inst, s.mem, s.pass + 1, 0)
                  else EnterSlice(inst, s.mem, s.pass, s.slice + 1)) else None
      case Write(l) =>
        if l < inst.lanes && s.threads[l].Running? && s.threads[l].index < inst.segmentLength
        then Some(s.(mem := WriteBlock(inst, p, s.mem, Position(s.pass, s.slice, l), s.threads[l].index),
                     threads := s.threads[l := Running(s.threads[l].index + 1)])) else None
      case Exit(l) =>
        if l < inst.lanes && s.threads[l] == Running(inst.segmentLength)
        then Some(s.(threads := s.threads[l := Exited])) else None
  }

  /** How far a lane's memory has come. */
  function Reached(inst: Instance, pass: U32, slice: nat, t: ThreadState): nat {
    match t
    case NotCreated => StartIndex(Position(pass, slice, 0))
    case Running(i) => i
    case _ => inst.segmentLength
  }

  function Progress(inst: Instance, s: State): (r: seq<nat>)
    ensures |r| == |s.threads|
    ensures forall l :: 0 <= l < |r| ==> r[l] == Reached(inst, s.pass, s.slice, s.threads[l])
  {
    seq(|s.threads|, l requires 0 <= l < |s.threads| => Reached(inst, s.pass, s.slice, s.threads[l]))
  }

  /** Memory when the current slice began, in the sequential order. */
  ghost function SliceStart(inst: Instance, p: Primitives, start: seq<Block>, s: State): (r: seq<Block>)
    requires Shape(inst, s) && |start| == inst.memoryBlocks && !s.phase.Finished?
    ensures |r| == inst.memoryBlocks
  {
    PassUpTo(inst, p, FillUpTo(inst, p, start, s.pass), s.pass, s.slice)
  }

  /** Lanes whose thread is created and not yet joined. */
  function Live(threads: seq<ThreadState>): set<nat> {
    set l: nat | l < |threads| && (threads[l].Running? || threads[l].Exited?)
  }

  /** Lanes joined so far, and lanes created so far, by the position of the main thread. */
  ghost predicate ThreadsInOrder(inst: Instance, s: State)
    requires Shape(inst, s) && !s.phase.Finished?
  {
    var joined := match s.phase
      case Launching(l) => l - inst.threads
      case Creating(l) => l - inst.threads + 1
      case Draining(l) => l;
    var created := if s.phase.Draining? then inst.lanes else s.phase.l;
    && (s.phase.Draining? ==> inst.lanes - inst.threads <= s.phase.l)
    && forall k :: 0 <= k < inst.lanes ==>
      && (s.threads[k].Joined? <==> k < joined)
      && (s.threads[k].NotCreated? <==> k >= created)
  }

  ghost predicate Invariant(inst: Instance, p: Primitives, start: seq<Block>, s: State) {
    && Shape(inst, s) && |start| == inst.memoryBlocks
    && if s.phase.Finished? then s.mem == FillUpTo(inst, p, start, inst.passes)
       else
         && ThreadsInOrder(inst, s)
         && ValidProgress(inst, s.pass, s.slice, Progress(inst, s))
         && LanesAlone(inst, p, SliceStart(inst, p, start, s), s.mem, s.pass, s.slice, Progress(inst, s))
  }

  lemma EnterSliceHolds(inst: Instance, p: Primitives, start: seq<Block>, mem: seq<Block>, pass: U32, slice: nat)
    requires WellFormed(inst) && |start| == inst.memoryBlocks && pass <= inst.passes && slice < 4
    requires mem == PassUpTo(inst, p, FillUpTo(inst, p, start, pass), pass, slice)
    requires pass == inst.passes ==> slice == 0
    ensures Invariant(inst, p, start, EnterSlice(inst, mem, pass, slice))
  {
    hide At, LanesAlone, FillUpTo, SliceUpTo, SegmentUpTo;
    if pass < inst.passes {
      hide PassUpTo;
      var s := EnterSlice(inst, mem, pass, slice);
      NoLaneRun(inst, p, mem, pass, slice);
      assert Progress(inst, s) == LanesDone(inst, pass, slice, 0);
    }
  }

  lemma DrainedSliceIsSequential(inst: Instance, p: Primitives, start: seq<Block>, s: State)
    requires Invariant(inst, p, start, s) && s.phase == Draining(inst.lanes)
    ensures s.mem == PassUpTo(inst, p, FillUpTo(inst, p, start, s.pass), s.pass, s.slice + 1)
  {
    hide LanesAlone, FillUpTo, SliceUpTo;
    assert Progress(inst, s) == LanesDone(inst, s.pass, s.slice, inst.lanes);
    FinishedSliceIsSequential(inst, p, SliceStart(inst, p, start, s), s.mem, s.pass, s.slice);
  }

  lemma SliceDoneKeepsInvariant(inst: Instance, p: Primitives, start: seq<Block>, s: State)
    requires Invariant(inst, p, start, s) && Step(inst, p, s, SliceDone).Some?
    ensures Invariant(inst, p, start, Step(inst, p, s, SliceDone).value)
  {
    hide LanesAlone, Invariant, SliceUpTo, PassUpTo, FillUpTo, EnterSlice, WellFormed, WriteBlock;
    ShapeOf(inst, p, start, s);
    DrainedSliceIsSequential(inst, p, start, s);
    if s.slice == 3 {
      NextPassStart(inst, p, start, s.pass);
      EnterSliceHolds(inst, p, start, s.mem, s.pass + 1, 0);
    } else {
      EnterSliceHolds(inst, p, start, s.mem, s.pass, s.slice + 1);
    }
  }

  lemma NextPassStart(inst: Instance, p: Primitives, start: seq<Block>, pass: U32)
    requires WellFormed(inst) && |start| == inst.memoryBlocks && pass < inst.passes
    ensures PassUpTo(inst, p, FillUpTo(inst, p, start, pass + 1), pass + 1, 0)
         == PassUpTo(inst, p, FillUpTo(inst, p, start, pass), pass, 4)
  {
    hide SliceUpTo, WellFormed;
  }

  lemma ShapeOf(inst: Instance, p: Primitives, start: seq<Block>, s: State)
    requires Invariant(inst, p, start, s)
    ensures Shape(inst, s) && |start| == inst.memoryBlocks
  {
  }

  lemma WriteKeepsInvariant(inst: Instance, p: Primitives, start: seq<Block>, s: State, l: nat)
    requires Invariant(inst, p, start, s) && Step(inst, p, s, Write(l)).Some?
    ensures Invariant(inst, p, start, Step(inst, p, s, Write(l)).value)
  {
    hide LanesAlone, WriteBlock;
    var t := Step(inst, p, s, Write(l)).value;
    StepKeepsLanesAlone(inst, p, SliceStart(inst, p, start, s), s.mem, s.pass, s.slice, Progress(inst, s), l);
    assert Progress(inst, t) == Progress(inst, s)[l := Progress(inst, s)[l] + 1];
  }

  /** Every step of every thread keeps the invariant. */
  lemma StepKeepsInvariant(inst: Instance, p: Primitives, start: seq<Block>, s: State, a: Action)
    requires Invariant(inst, p, start, s) && Step(inst, p, s, a).Some?
    ensures Invariant(inst, p, start, Step(inst, p, s, a).value)
  {
    hide LanesAlone, PassUpTo, FillUpTo;
    if a.Write? {
      WriteKeepsInvariant(inst, p, start, s, a.lane);
    } else if a.SliceDone? {
      SliceDoneKeepsInvariant(inst, p, start, s);
    } else {
      var t := Step(inst, p, s, a).value;
      assert Progress(inst, t) == Progress(inst, s);
    }
  }

  /** The state a schedule leads to; schedules that try an impossible step lead nowhere. */
  ghost function Run(inst: Instance, p: Primitives, start: seq<Block>, s: State,
                     schedule: seq<Action>): (r: Option<State>)
    requires Invariant(inst, p, start, s)
    ensures r.Some? ==> Invariant(inst, p, start, r.value)
    decreases |schedule|
  {
    if schedule == [] then Some(s)
    else match Step(inst, p, s, schedule[0])
      case None => None
      case Some(t) =>
        StepKeepsInvariant(inst, p, start, s, schedule[0]);
        Run(inst, p, start, t, schedule[1..])
  }

  lemma InitHolds(inst: Instance, p: Primitives, start: seq<Block>)
    requires WellFormed(inst) && |start| == inst.memoryBlocks
    ensures Invariant(inst, p, start, Init(inst, start))
  {
    EnterSliceHolds(inst, p, start, start, 0, 0);
  }

  /** Whatever the schedule and the number of threads, a finished run leaves exactly the memory that
      the single-threaded loop computes. */
  lemma EveryScheduleIsSequential(inst: Instance, p: Primitives, start: seq<Block>, schedule: seq<Action>)
    requires WellFormed(inst) && |start| == inst.memoryBlocks
    ensures Invariant(inst, p, start, Init(inst, start))
    ensures var r := Run(inst, p, start, Init(inst, start), schedule);
            r.Some? && r.value.phase.Finished? ==> r.value.mem == FillUpTo(inst, p, start, inst.passes)
  {
    InitHolds(inst, p, start);
  }

  /** At most inst.threads lane threads are live, and every join is of a thread that was created in
      this slice and not joined before; when a slice ends, every lane's thread has been joined. */
  lemma JoinDiscipline(inst: Instance, p: Primitives, start: seq<Block>, s: State)
    requires Invariant(inst, p, start, s) && !s.phase.Finished?
    ensures |Live(s.threads)| <= inst.threads
    ensures s.phase.Launching? && inst.threads <= s.phase.l < inst.lanes ==> s.phase.l - inst.threads in Live(s.threads)
    ensures s.phase.Draining? && s.phase.l < inst.lanes ==> s.phase.l in Live(s.threads)
    ensures s.phase == Draining(inst.lanes) ==> forall k :: 0 <= k < inst.lanes ==> s.threads[k].Joined?
  {
    hide LanesAlone;
    var lo := match s.phase
      case Launching(l) => l - inst.threads
      case Creating(l) => l - inst.threads + 1
      case Draining(l) => l;
    RangeBound(Live(s.threads), if lo < 0 then 0 else lo, inst.threads);
  }

  lemma RangeBound(s: set<nat>, lo: nat, n: nat)
    requires forall x :: x in s ==> lo <= x < lo + n
    ensures |s| <= n
  {
    if n > 0 {
      var below := s - {lo + n - 1};
      RangeBound(below, lo, n - 1);
    } else if x :| x in s {
      assert false;
    }
  }

  /** The step the main thread takes next, or one of the thread it waits for. */
  function Wanted(inst: Instance, s: State): Action
    requires Shape(inst, s) && !s.phase.Finished?
  {
    match s.phase
    case Launching(l) =>
      if l == inst.lanes then LaunchDone
      else if l < inst.threads then UnderLimit
      else Towards(inst, s, l - inst.threads, JoinOldest)
    case Creating(l) => CreateThread
    case Draining(l) => if l == inst.lanes then SliceDone else Towards(inst, s, l, JoinNext)
  }

  /** The awaited thread itself, or the join that was waiting for it. */
  function Towards(inst: Instance, s: State, lane: nat, join: Action): Action
    requires lane < |s.threads|
  {
    match s.threads[lane]
    case Running(i) => if i < inst.segmentLength then Write(lane) else Exit(lane)
    case _ => join
  }

  /** No deadlock: until it is finished, the system can always take a step. */
  lemma NeverStuck(inst: Instance, p: Primitives, start: seq<Block>, s: State)
    requires Invariant(inst, p, start, s) && !s.phase.Finished?
    ensures Step(inst, p, s, Wanted(inst, s)).Some?
  {
    hide LanesAlone, WriteBlock;
  }

  /** Steps a lane thread still needs, its creation included. */
  function ThreadWork(inst: Instance, t: ThreadState): nat {
    match t
    case NotCreated => inst.segmentLength + 2
    case Running(i) => if i <= inst.segmentLength then inst.segmentLength - i + 1 else 0
    case _ => 0
  }

  function TotalWork(inst: Instance, threads: seq<ThreadState>): nat {
    if threads == [] then 0 else ThreadWork(inst, threads[0]) + TotalWork(inst, threads[1..])
  }

  lemma {:induction false} WorkOfUpdate(inst: Instance, threads: seq<ThreadState>, l: nat, t: ThreadState)
    requires l < |threads|
    ensures TotalWork(inst, threads[l := t]) + ThreadWork(inst, threads[l])
      == TotalWork(inst, threads) + ThreadWork(inst, t)
  {
    if l == 0 {
      assert threads[0 := t][1..] == threads[1..];
    } else {
      assert threads[l := t][1..] == threads[1..][l - 1 := t];
      WorkOfUpdate(inst, threads[1..], l - 1, t);
    }
  }

  lemma {:induction false} WorkOfIdle(inst: Instance, n: nat)
    ensures TotalWork(inst, Idle(n)) == n * (inst.segmentLength + 2)
  {
    if n > 0 {
      assert Idle(n)[1..] == Idle(n - 1);
      WorkOfIdle(inst, n - 1);
    }
  }

  /** Steps the main thread still needs in this slice. */
  function MainWork(inst: Instance, phase: Phase): int {
    match phase
    case Launching(l) => 2 * (inst.lanes - l) + inst.lanes + 2
    case Creating(l) => 2 * (inst.lanes - l) + inst.lanes + 1
    case Draining(l) => inst.lanes - l + 1
    case Finished => 0
  }

  function SliceBudget(inst: Instance): nat {
    inst.lanes * (inst.segmentLength + 2) + 3 * inst.lanes + 2
  }

  ghost function SlicesAfter(inst: Instance, s: State): nat
    requires Shape(inst, s) && !s.phase.Finished?
  {
    4 * (inst.passes - s.pass) - s.slice - 1
  }

  /** A bound on the number of steps of all threads together. */
  ghost function Budget(inst: Instance, s: State): int
    requires Shape(inst, s)
  {
    if s.phase.Finished? then 0
    else SlicesAfter(inst, s) * SliceBudget(inst) + MainWork(inst, s.phase) + TotalWork(inst, s.threads)
  }

  /** Within a slice every step leaves less work. */
  lemma StepSpendsWork(inst: Instance, p: Primitives, s: State, a: Action)
    requires Shape(inst, s) && !s.phase.Finished? && ThreadsInOrder(inst, s)
    requires !a.SliceDone? && Step(inst, p, s, a).Some?
    ensures var t := Step(inst, p, s, a).value;
            && !t.phase.Finished? && t.pass == s.pass && t.slice == s.slice
            && MainWork(inst, t.phase) + TotalWork(inst, t.threads)
               < MainWork(inst, s.phase) + TotalWork(inst, s.threads)
  {
    LayoutBounds(inst);
    hide WriteBlock, WellFormed;
    var t := Step(inst, p, s, a).value;
    match a
    case JoinOldest => WorkOfUpdate(inst, s.threads, s.phase.l - inst.threads, Joined);
    case CreateThread => WorkOfUpdate(inst, s.threads, s.phase.l, t.threads[s.phase.l]);
    case JoinNext => WorkOfUpdate(inst, s.threads, s.phase.l, Joined);
    case Write(l) => WorkOfUpdate(inst, s.threads, l, t.threads[l]);
    case Exit(l) => WorkOfUpdate(inst, s.threads, l, Exited);
    case _ =>
  }

  lemma LayoutBounds(inst: Instance)
    requires WellFormed(inst)
    ensures 1 <= inst.threads <= inst.lanes && 2 <= inst.segmentLength
  {
  }

  lemma StepSpendsBudget(inst: Instance, p: Primitives, start: seq<Block>, s: State, a: Action)
    requires Invariant(inst, p, start, s) && Step(inst, p, s, a).Some?
    ensures Invariant(inst, p, start, Step(inst, p, s, a).value)
    ensures 0 <= Budget(inst, Step(inst, p, s, a).value) < Budget(inst, s)
  {
    StepKeepsInvariant(inst, p, start, s, a);
    hide LanesAlone, WriteBlock, PassUpTo, FillUpTo, ValidProgress, WellFormed, SliceBudget;
    var t := Step(inst, p, s, a).value;
    BudgetNonNegative(inst, p, start, t);
    if a.SliceDone? {
      NextSliceBudget(inst, s, t);
    } else {
      StepSpendsWork(inst, p, s, a);
    }
  }

  lemma NextSliceBudget(inst: Instance, s: State, t: State)
    requires Shape(inst, s) && Shape(inst, t) && s.phase == Draining(inst.lanes)
    requires t.phase.Finished? || (t.phase == Launching(0) && t.threads == Idle(inst.lanes)
                                   && SlicesAfter(inst, t) + 1 == SlicesAfter(inst, s))
    ensures Budget(inst, t) < Budget(inst, s)
  {
    hide WellFormed, SliceBudget;
    ProductNonNegative(SlicesAfter(inst, s), SliceBudget(inst));
    if !t.phase.Finished? {
      IdleSliceWork(inst);
      Distribute(SlicesAfter(inst, t), SliceBudget(inst));
    }
  }

  /** A slice that has not started needs exactly the slice budget. */
  lemma IdleSliceWork(inst: Instance)
    ensures MainWork(inst, Launching(0)) + TotalWork(inst, Idle(inst.lanes)) == SliceBudget(inst)
  {
    WorkOfIdle(inst, inst.lanes);
  }

  lemma ProductNonNegative(a: nat, b: nat)
    ensures a * b >= 0
  {
  }

  lemma Distribute(k: nat, w: nat)
    ensures (k + 1) * w == k * w + w
  {
  }

  /** Every schedule ends: no run is longer than the budget of the initial state. */
  lemma {:induction false} RunIsBounded(inst: Instance, p: Primitives, start: seq<Block>, s: State,
                                        schedule: seq<Action>)
    requires Invariant(inst, p, start, s)
    requires Run(inst, p, start, s, schedule).Some?
    ensures |schedule| <= Budget(inst, s)
    decreases |schedule|
  {
    if schedule == [] {
      BudgetNonNegative(inst, p, start, s);
    } else {
      hide LanesAlone, WriteBlock, PassUpTo, FillUpTo, Budget;
      var t := Step(inst, p, s, schedule[0]).value;
      StepSpendsBudget(inst, p, start, s, schedule[0]);
      RunIsBounded(inst, p, start, t, schedule[1..]);
    }
  }

  lemma BudgetNonNegative(inst: Instance, p: Primitives, start: seq<Block>, s: State)
    requires Invariant(inst, p, start, s)
    ensures 0 <= Budget(inst, s)
  {
    hide LanesAlone, SliceBudget;
    if !s.phase.Finished? {
      ProductNonNegative(SlicesAfter(inst, s), SliceBudget(inst));
    }
  }

  /** fill_memory_blocks_mt under any scheduler: `choose` proposes the next step, and a step that cannot be taken
      gives way to one that can. */
  method FillMemoryBlocksMt(inst: Instance, p: Primitives, memory: array<Block>, choose: nat -> Action)
    requires WellFormed(inst) && memory.Length == inst.memoryBlocks
    modifies memory
    ensures memory[..] == FillUpTo(inst, p, old(memory[..]), inst.passes)
  {
    hide *;
    ghost var start := memory[..];
    InitHolds(inst, p, start);
    InitialMemory(inst, start);
    var s := Init(inst, memory[..]);
    ShapeOf(inst, p, start, s);
    var time := 0;
    while !s.phase.Finished?
      invariant Shape(inst, s) && Invariant(inst, p, start, s) && memory[..] == s.mem
      decreases Budget(inst, s)
    {
      var a := choose(time);
      if Step(inst, p, s, a).None? {
        NeverStuck(inst, p, start, s);
        a := Wanted(inst, s);
      }
      StepSpendsBudget(inst, p, start, s, a);
      StepWrites(inst, p, s, a);
      if a.Write? {
        memory[CurrOffset(inst, Position(s.pass, s.slice, a.lane), s.threads[a.lane].index)] :=
          NewBlock(inst, p, memory[..], Position(s.pass, s.slice, a.lane), s.threads[a.lane].index);
      }
      s := Step(inst, p, s, a).value;
      ShapeOf(inst, p, start, s);
      time := time + 1;
    }
    AtTheEnd(inst, p, start, s);
  }

  lemma InitialMemory(inst: Instance, mem: seq<Block>)
    ensures Init(inst, mem).mem == mem
  {
  }

  lemma AtTheEnd(inst: Instance, p: Primitives, start: seq<Block>, s: State)
    requires Invariant(inst, p, start, s) && s.phase.Finished?
    ensures s.mem == FillUpTo(inst, p, start, inst.passes)
  {
  }

  /** What a step does to the memory. */
  lemma StepWrites(inst: Instance, p: Primitives, s: State, a: Action)
    requires Shape(inst, s) && Step(inst, p, s, a).Some?
    ensures a.Write? ==>
      && a.lane < |s.threads| == inst.lanes && s.threads[a.lane].Running?
      && ValidPosition(inst, Position(s.pass, s.slice, a.lane)) && |s.mem| == inst.memoryBlocks
      && StartIndex(Position(s.pass, s.slice, a.lane)) <= s.threads[a.lane].index < inst.segmentLength
      && var pos, i := Position(s.pass, s.slice, a.lane), s.threads[a.lane].index;
         Step(inst, p, s, a).value.mem == s.mem[CurrOffset(inst, pos, i) := NewBlock(inst, p, s.mem, pos, i)]
    ensures !a.Write? ==> Step(inst, p, s, a).value.mem == s.mem
  {
    hide NewBlock;
  }

  /** fill_memory_blocks */
  method FillMemoryBlocks(inst: Instance, p: Primitives, memory: array<Block>, choose: nat -> Action)
    requires WellFormed(inst) && memory.Length == inst.memoryBlocks
    modifies memory
    ensures memory[..] == FillUpTo(inst, p, old(memory[..]), inst.passes)
  {
    if inst.threads == 1 {
      FillMemoryBlocksSt(inst, p, memory);
    } else {
      FillMemoryBlocksMt(inst, p, memory, choose);
    }
  }

  /** Whatever the other lanes do, a running thread may write its next block, and exit after its last; the write touches
      no block but that one. */
  lemma AnyLaneMayRun(inst: Instance, p: Primitives, s: State, l: nat, lane: nat, col: nat)
    requires Shape(inst, s) && !s.phase.Finished? && l < inst.lanes && s.threads[l].Running?
    requires lane < inst.lanes && col < inst.laneLength
    ensures s.threads[l].index < inst.segmentLength ==>
              var r := Step(inst, p, s, Write(l));
              && r.Some? && |r.value.mem| == |s.mem|
              && r.value.threads == s.threads[l := Running(s.threads[l].index + 1)]
              && (lane != l || col != Column(inst, Position(s.pass, s.slice, l), s.threads[l].index) ==>
                    At(inst, r.value.mem, lane, col) == At(inst, s.mem, lane, col))
    ensures s.threads[l].index == inst.segmentLength ==> Step(inst, p, s, Exit(l)).Some?
  {
    if s.threads[l].index < inst.segmentLength {
      WriteEffect(inst, p, s.mem, Position(s.pass, s.slice, l), s.threads[l].index, lane, col);
    }
    hide WriteBlock, At, Column;
  }
}
