/** FlowEngine: at most one run of a flow at a time, its operations one after another, and a stop request that
    may arrive at any moment. The atomic steps are the critical sections of execute, stop and run, and the
    calls of run into the sync engine. */
module FlowEngine {
  import opened Wrappers

  datatype Status = Running | Cancelling | Completed | Failed | Cancelled

  predicate Terminal(s: Status) {
    s.Completed? || s.Failed? || s.Cancelled?
  }

  /** An entry of `runs`. */
  datatype RunEntry = RunEntry(cancelled: bool, status: Status)

  /** What a task ended with, as waitTask reports it. */
  datatype TaskEnd = TaskCompleted | TaskFailed | TaskCancelled

  /** Where the thread of a run is: about to check operation i, about to start it, waiting for its task, about
      to classify its error, about to leave, or gone. */
  datatype Place =
    | Checking(i: nat)
    | Starting(i: nat)
    | Waiting(i: nat)
    | Erring(i: nat, error: TaskEnd)
    | Leaving(final: Status)
    | Publishing(final: Status)
    | Gone(final: Status)

  /** A run of a flow with `count` operations, and its history. */
  datatype Thread = Thread(
    flow: string, count: nat, place: Place, started: seq<nat>, ends: seq<TaskEnd>, startedAfterStop: nat,
    stopped: bool, terminals: seq<Status>)

  datatype Engine = Engine(runs: map<string, RunEntry>, lastStatus: map<string, Status>, threads: map<nat, Thread>)

  function Idle(): Engine {
    Engine(map[], map[], map[])
  }

  datatype Action =
    | Execute(flow: string, count: nat, id: nat)
    | Stop(flow: string)
    | Check(id: nat)
    | StartTask(id: nat, ok: bool)
    | Poll(id: nat)
    | TaskEnds(id: nat, end: TaskEnd)
    | Classify(id: nat)
    | Leave(id: nat)
    | PublishTerminal(id: nat)

  function Live(t: Thread): bool {
    !t.place.Publishing? && !t.place.Gone?
  }

  function IsCancelled(e: Engine, flow: string): bool {
    flow in e.runs && e.runs[flow].cancelled
  }

  predicate At(e: Engine, id: nat) {
    id in e.threads
  }

  ghost predicate Enabled(e: Engine, a: Action) {
    match a
    // execute refuses an empty flow before, and a running one inside, its critical section
    case Execute(flow, count, id) => count > 0 && id !in e.threads && flow !in e.runs
    case Stop(flow) => flow in e.runs
    case Check(id) => At(e, id) && e.threads[id].place.Checking?
    case StartTask(id, _) => At(e, id) && e.threads[id].place.Starting?
    case Poll(id) => At(e, id) && e.threads[id].place.Waiting? && IsCancelled(e, e.threads[id].flow)
    case TaskEnds(id, _) => At(e, id) && e.threads[id].place.Waiting?
    case Classify(id) => At(e, id) && e.threads[id].place.Erring?
    case Leave(id) => At(e, id) && e.threads[id].place.Leaving?
    case PublishTerminal(id) => At(e, id) && e.threads[id].place.Publishing?
  }

  /** The stop request reaches the live run of its flow. */
  function MarkStopped(threads: map<nat, Thread>, flow: string): map<nat, Thread> {
    map id | id in threads ::
      if threads[id].flow == flow && Live(threads[id]) then threads[id].(stopped := true) else threads[id]
  }

  function Next(e: Engine, a: Action): Engine
    requires Enabled(e, a)
  {
    match a
    case Execute(flow, count, id) =>
      Engine(e.runs[flow := RunEntry(false, Running)], e.lastStatus - {flow},
             e.threads[id := Thread(flow, count, Checking(0), [], [], 0, false, [])])
    case Stop(flow) =>
      e.(runs := e.runs[flow := RunEntry(true, Cancelling)], threads := MarkStopped(e.threads, flow))
    case Check(id) => Put(e, id, AfterCheck(e.threads[id], IsCancelled(e, e.threads[id].flow)))
    case StartTask(id, ok) => Put(e, id, AfterStart(e.threads[id], ok))
    case Poll(id) => Put(e, id, e.threads[id].(place := Erring(e.threads[id].place.i, TaskCancelled)))
    case TaskEnds(id, end) => Put(e, id, AfterWait(e.threads[id], end))
    case Classify(id) => Put(e, id, AfterError(e.threads[id], IsCancelled(e, e.threads[id].flow)))
    case Leave(id) =>
      var t := e.threads[id];
      Engine(e.runs - {t.flow}, e.lastStatus[t.flow := t.place.final],
             e.threads[id := t.(place := Publishing(t.place.final))])
    case PublishTerminal(id) =>
      var t := e.threads[id];
      Put(e, id, t.(place := Gone(t.place.final), terminals := t.terminals + [t.place.final]))
  }

  function Put(e: Engine, id: nat, t: Thread): Engine {
    e.(threads := e.threads[id := t])
  }

  function AfterCheck(t: Thread, cancelled: bool): Thread
    requires t.place.Checking?
  {
    if t.place.i == t.count then t.(place := Leaving(Completed))
    else if cancelled then t.(place := Leaving(Cancelled))
    else t.(place := Starting(t.place.i))
  }

  function AfterStart(t: Thread, ok: bool): Thread
    requires t.place.Starting?
  {
    if ok then
      t.(place := Waiting(t.place.i), started := t.started + [t.place.i],
         startedAfterStop := t.startedAfterStop + if t.stopped then 1 else 0)
    else t.(place := Leaving(Failed))
  }

  function AfterWait(t: Thread, end: TaskEnd): Thread
    requires t.place.Waiting?
  {
    if end.TaskCompleted? then t.(place := Checking(t.place.i + 1), ends := t.ends + [end])
    else t.(place := Erring(t.place.i, end), ends := t.ends + [end])
  }

  function AfterError(t: Thread, cancelled: bool): Thread
    requires t.place.Erring?
  {
    t.(place := Leaving(if cancelled || t.place.error.TaskCancelled? then Cancelled else Failed))
  }

  // ---- invariant -------------------------------------------------------------------------------

  ghost predicate InOrder(started: seq<nat>) {
    forall i :: 0 <= i < |started| ==> started[i] == i
  }

  ghost predicate AllCompleted(ends: seq<TaskEnd>) {
    forall i :: 0 <= i < |ends| ==> ends[i].TaskCompleted?
  }

  /** The final status is announced once, on the way out. */
  ghost predicate Announced(t: Thread) {
    match t.place
    case Gone(final) => t.terminals == [final]
    case _ => t.terminals == []
  }

  /** The history of one run: operations start in order, each after the one before it completed. */
  ghost predicate ThreadOk(t: Thread) {
    && InOrder(t.started) && |t.started| <= t.count
    && Announced(t)
    && t.startedAfterStop <= 1 && (!t.stopped ==> t.startedAfterStop == 0)
    && match t.place
       case Checking(i) => i == |t.started| == |t.ends| && AllCompleted(t.ends)
       case Starting(i) =>
         && i == |t.started| == |t.ends| && i < t.count
         && AllCompleted(t.ends) && t.startedAfterStop == 0
       case Waiting(i) => i + 1 == |t.started| == |t.ends| + 1 && AllCompleted(t.ends)
       case Erring(i, error) =>
         && i + 1 == |t.started| && i <= |t.ends| <= i + 1
         && AllCompleted(t.ends[..i]) && !error.TaskCompleted?
       case Leaving(final) => Ended(t, final)
       case Publishing(final) => Ended(t, final)
       case Gone(final) => Ended(t, final)
  }

  /** How a run may end: only a run whose every operation completed is called completed. */
  ghost predicate Ended(t: Thread, final: Status) {
    && Terminal(final)
    && (final.Completed? ==> |t.started| == |t.ends| == t.count && AllCompleted(t.ends))
    && |t.ends| <= |t.started| <= |t.ends| + 1
    && (|t.started| > 0 ==> AllCompleted(t.ends[..if |t.ends| < |t.started| then |t.ends| else |t.ends| - 1]))
  }

  /** `runs` holds exactly the flows with a live thread, of which there is one each; a stopped run's flag is
      set; and no flow is in both maps. */
  ghost predicate EngineOk(e: Engine) {
    ThreadsOk(e) && FlagsOk(e) && RunsOk(e) && OneEach(e) && Apart(e)
  }

  ghost predicate ThreadsOk(e: Engine) {
    forall id :: id in e.threads ==> ThreadOk(e.threads[id])
  }

  ghost predicate FlagsOk(e: Engine) {
    forall id :: id in e.threads && Live(e.threads[id]) ==>
      e.threads[id].flow in e.runs && e.runs[e.threads[id].flow].cancelled == e.threads[id].stopped
  }

  ghost predicate RunsOk(e: Engine) {
    forall f :: f in e.runs ==> HasLive(e, f) && e.runs[f].status == if e.runs[f].cancelled then Cancelling else Running
  }

  ghost predicate OneEach(e: Engine) {
    forall i, j ::
      && i in e.threads && j in e.threads && Live(e.threads[i]) && Live(e.threads[j])
      && e.threads[i].flow == e.threads[j].flow
      ==> i == j
  }

  ghost predicate Apart(e: Engine) {
    forall f :: f in e.lastStatus ==> f !in e.runs && Terminal(e.lastStatus[f])
  }

  ghost predicate HasLive(e: Engine, f: string) {
    exists id :: id in e.threads && e.threads[id].flow == f && Live(e.threads[id])
  }

  // ---- every action keeps the invariant --------------------------------------------------------

  lemma AfterCheckOk(t: Thread, cancelled: bool)
    requires ThreadOk(t) && t.place.Checking? && cancelled == t.stopped
    ensures ThreadOk(AfterCheck(t, cancelled))
  {
    assert t.ends == t.ends[..|t.ends|];
  }

  lemma AfterStartOk(t: Thread, ok: bool)
    requires ThreadOk(t) && t.place.Starting?
    ensures ThreadOk(AfterStart(t, ok))
  {
    assert t.ends == t.ends[..|t.ends|];
  }

  lemma AfterWaitOk(t: Thread, end: TaskEnd)
    requires ThreadOk(t) && t.place.Waiting?
    ensures ThreadOk(AfterWait(t, end))
  {
    assert (t.ends + [end])[..|t.ends|] == t.ends;
  }

  lemma AfterErrorOk(t: Thread, cancelled: bool)
    requires ThreadOk(t) && t.place.Erring?
    ensures ThreadOk(AfterError(t, cancelled))
  {
  }

  /** A thread may move on as long as it stays the live run of its flow. */
  lemma MoveOk(e: Engine, id: nat, t: Thread)
    requires EngineOk(e) && id in e.threads && ThreadOk(t)
    requires Live(e.threads[id]) == Live(t) && t.flow == e.threads[id].flow && t.stopped == e.threads[id].stopped
    ensures EngineOk(Put(e, id, t))
  {
    hide ThreadOk, HasLive;
    var n := Put(e, id, t);
    assert ThreadsOk(n) && FlagsOk(n) && OneEach(n) && Apart(n);
    forall f | f in n.runs
      ensures HasLive(n, f)
    {
      MoveStillLive(e, id, t, f);
    }
  }

  lemma MoveStillLive(e: Engine, id: nat, t: Thread, f: string)
    requires HasLive(e, f) && id in e.threads && Live(e.threads[id]) == Live(t) && t.flow == e.threads[id].flow
    ensures HasLive(Put(e, id, t), f)
  {
    var j :| j in e.threads && e.threads[j].flow == f && Live(e.threads[j]);
    assert LiveRunIs(Put(e, id, t), f, j);
  }

  lemma ExecuteOk(e: Engine, flow: string, count: nat, id: nat)
    requires EngineOk(e) && Enabled(e, Execute(flow, count, id))
    ensures EngineOk(Next(e, Execute(flow, count, id)))
  {
    var n := Next(e, Execute(flow, count, id));
    assert ThreadOk(n.threads[id]);
    hide ThreadOk, HasLive;
    assert ThreadsOk(n) && FlagsOk(n) && Apart(n);
    assert OneEach(n) by {
      hide ThreadsOk, RunsOk, Apart;
    }
    ExecuteRunsOk(e, flow, count, id);
  }

  lemma ExecuteRunsOk(e: Engine, flow: string, count: nat, id: nat)
    requires RunsOk(e) && Enabled(e, Execute(flow, count, id))
    ensures RunsOk(Next(e, Execute(flow, count, id)))
  {
    var n := Next(e, Execute(flow, count, id));
    forall f | f in n.runs
      ensures HasLive(n, f)
    {
      if f == flow {
        assert LiveRunIs(n, f, id);
      } else {
        StillLive(e, n, f, id);
      }
    }
  }

  ghost predicate LiveRunIs(e: Engine, f: string, id: nat) {
    id in e.threads && e.threads[id].flow == f && Live(e.threads[id])
  }

  /** A flow's live run is untouched by a change to another thread. */
  lemma StillLive(e: Engine, n: Engine, f: string, id: nat)
    requires HasLive(e, f) && (id in e.threads && Live(e.threads[id]) ==> e.threads[id].flow != f)
    requires forall j :: j in e.threads && j != id ==>
      j in n.threads && n.threads[j].flow == e.threads[j].flow && n.threads[j].place == e.threads[j].place
    ensures HasLive(n, f)
  {
    var j :| j in e.threads && e.threads[j].flow == f && Live(e.threads[j]);
    assert LiveRunIs(n, f, j);
  }

  lemma MarkedOk(t: Thread)
    requires ThreadOk(t)
    ensures ThreadOk(t.(stopped := true))
  {
  }

  lemma StopOk(e: Engine, flow: string)
    requires EngineOk(e) && Enabled(e, Stop(flow))
    ensures EngineOk(Next(e, Stop(flow)))
  {
    hide ThreadOk, HasLive;
    var n := Next(e, Stop(flow));
    forall id | id in n.threads
      ensures ThreadOk(n.threads[id])
    {
      MarkedOk(e.threads[id]);
    }
    assert FlagsOk(n) && Apart(n);
    assert OneEach(n) by {
      hide ThreadsOk, RunsOk, Apart;
    }
    StopRunsOk(e, flow);
  }

  lemma StopRunsOk(e: Engine, flow: string)
    requires RunsOk(e) && Enabled(e, Stop(flow))
    ensures RunsOk(Next(e, Stop(flow)))
  {
    var n := Next(e, Stop(flow));
    forall f | f in n.runs
      ensures HasLive(n, f)
    {
      assert HasLive(e, f);
      var j :| j in e.threads && e.threads[j].flow == f && Live(e.threads[j]);
      assert LiveRunIs(n, f, j);
    }
  }

  lemma LeaveOk(e: Engine, id: nat)
    requires EngineOk(e) && Enabled(e, Leave(id))
    ensures EngineOk(Next(e, Leave(id)))
  {
    hide ThreadsOk, FlagsOk, OneEach, RunsOk, Apart, ThreadOk, Terminal;
    ThreadOf(e, id);
    LeaveThreadOk(e.threads[id]);
    LeaveThreadsOk(e, id);
    LeaveFlagsOk(e, id);
    LeaveApart(e, id);
    LeaveRunsOk(e, id);
  }

  lemma LeaveThreadsOk(e: Engine, id: nat)
    requires ThreadsOk(e) && Enabled(e, Leave(id))
    ensures ThreadsOk(Next(e, Leave(id)))
  {
    LeaveThreadOk(e.threads[id]);
    hide ThreadOk;
  }

  lemma LeaveFlagsOk(e: Engine, id: nat)
    requires FlagsOk(e) && OneEach(e) && Enabled(e, Leave(id))
    ensures FlagsOk(Next(e, Leave(id))) && OneEach(Next(e, Leave(id)))
  {
  }

  lemma LeaveApart(e: Engine, id: nat)
    requires Apart(e) && Enabled(e, Leave(id)) && Terminal(e.threads[id].place.final)
    ensures Apart(Next(e, Leave(id)))
  {
  }

  lemma LeaveThreadOk(t: Thread)
    requires ThreadOk(t) && t.place.Leaving?
    ensures ThreadOk(t.(place := Publishing(t.place.final))) && Terminal(t.place.final)
  {
  }

  lemma LeaveRunsOk(e: Engine, id: nat)
    requires RunsOk(e) && Enabled(e, Leave(id))
    ensures RunsOk(Next(e, Leave(id)))
  {
    var n := Next(e, Leave(id));
    forall f | f in n.runs
      ensures HasLive(n, f)
    {
      StillLive(e, n, f, id);
    }
  }

  lemma ThreadOf(e: Engine, id: nat)
    requires EngineOk(e) && id in e.threads
    ensures ThreadOk(e.threads[id])
    ensures Live(e.threads[id]) ==> IsCancelled(e, e.threads[id].flow) == e.threads[id].stopped
  {
    hide ThreadOk;
  }

  lemma ActionKeepsEngineOk(e: Engine, a: Action)
    requires EngineOk(e) && Enabled(e, a)
    ensures EngineOk(Next(e, a))
  {
    hide EngineOk, ThreadOk;
    match a
    case Execute(flow, count, id) => ExecuteOk(e, flow, count, id);
    case Stop(flow) => StopOk(e, flow);
    case Check(id) =>
      ThreadOf(e, id);
      AfterCheckOk(e.threads[id], IsCancelled(e, e.threads[id].flow));
      MoveOk(e, id, AfterCheck(e.threads[id], IsCancelled(e, e.threads[id].flow)));
    case StartTask(id, ok) =>
      ThreadOf(e, id);
      AfterStartOk(e.threads[id], ok);
      MoveOk(e, id, AfterStart(e.threads[id], ok));
    case Poll(id) =>
      ThreadOf(e, id);
      PollOk(e.threads[id]);
      MoveOk(e, id, e.threads[id].(place := Erring(e.threads[id].place.i, TaskCancelled)));
    case TaskEnds(id, end) =>
      ThreadOf(e, id);
      AfterWaitOk(e.threads[id], end);
      MoveOk(e, id, AfterWait(e.threads[id], end));
    case Classify(id) =>
      ThreadOf(e, id);
      AfterErrorOk(e.threads[id], IsCancelled(e, e.threads[id].flow));
      MoveOk(e, id, AfterError(e.threads[id], IsCancelled(e, e.threads[id].flow)));
    case Leave(id) => LeaveOk(e, id);
    case PublishTerminal(id) =>
      ThreadOf(e, id);
      AnnounceOk(e.threads[id]);
      MoveOk(e, id, Next(e, a).threads[id]);
  }

  lemma PollOk(t: Thread)
    requires ThreadOk(t) && t.place.Waiting?
    ensures ThreadOk(t.(place := Erring(t.place.i, TaskCancelled)))
  {
    assert t.ends[..|t.ends|] == t.ends;
  }

  lemma AnnounceOk(t: Thread)
    requires ThreadOk(t) && t.place.Publishing?
    ensures ThreadOk(t.(place := Gone(t.place.final), terminals := t.terminals + [t.place.final]))
  {
  }

  // ---- runs ------------------------------------------------------------------------------------

  ghost predicate Step(e: Engine, a: Action, n: Engine) {
    Enabled(e, a) && n == Next(e, a)
  }

  ghost predicate Moves(e: Engine, n: Engine) {
    exists a :: Step(e, a, n)
  }

  ghost predicate Run(run: seq<Engine>) {
    && run != [] && run[0] == Idle()
    && forall i, j :: 0 <= i < j < |run| && j == i + 1 ==> Moves(run[i], run[j])
  }

  lemma {:induction false} RunIsOk(run: seq<Engine>, n: nat)
    requires Run(run) && n < |run|
    ensures EngineOk(run[n])
  {
    hide EngineOk, Enabled, Next;
    if n == 0 {
      IdleIsOk();
    } else {
      RunIsOk(run, n - 1);
      assert Moves(run[n - 1], run[n]);
      var a :| Step(run[n - 1], a, run[n]);
      ActionKeepsEngineOk(run[n - 1], a);
    }
  }

  lemma IdleIsOk()
    ensures EngineOk(Idle())
  {
  }

  /** In every interleaving: one live run a flow, no flow both running and finished, operations started in list
      order with every earlier one completed, at most one started after a stop, and one terminal event, which
      says "completed" only if every operation did. */
  lemma EveryRunIsOrderly(run: seq<Engine>, n: nat, id: nat)
    requires Run(run) && n < |run| && id in run[n].threads
    ensures var e := run[n]; var t := e.threads[id];
            && InOrder(t.started) && |t.started| <= t.count
            && (forall i :: 0 <= i < |t.started| - 1 ==> i < |t.ends| && t.ends[i].TaskCompleted?)
            && t.startedAfterStop <= 1
            && |t.terminals| <= 1
            && (t.place.Gone? ==> t.terminals == [t.place.final] && Terminal(t.place.final))
            && (t.place.Gone? && t.place.final.Completed? ==> |t.ends| == t.count && AllCompleted(t.ends))
            && (forall f :: f in e.lastStatus ==> f !in e.runs)
            && (forall j :: j in e.threads && Live(t) && Live(e.threads[j]) && e.threads[j].flow == t.flow ==> j == id)
            && (Live(t) <==> t.flow in e.runs && LiveRunIs(e, t.flow, id))
  {
    RunIsOk(run, n);
    ThreadHistory(run[n].threads[id]);
    hide ThreadOk;
  }

  lemma ThreadHistory(t: Thread)
    requires ThreadOk(t)
    ensures InOrder(t.started) && |t.started| <= t.count && t.startedAfterStop <= 1
    ensures forall i :: 0 <= i < |t.started| - 1 ==> i < |t.ends| && t.ends[i].TaskCompleted?
    ensures |t.terminals| <= 1
    ensures t.place.Gone? ==> t.terminals == [t.place.final] && Terminal(t.place.final)
    ensures t.place.Gone? && t.place.final.Completed? ==> |t.ends| == t.count && AllCompleted(t.ends)
  {
    forall i | 0 <= i < |t.started| - 1
      ensures i < |t.ends| && t.ends[i].TaskCompleted?
    {
      if t.place.Erring? {
        assert t.ends[..t.place.i][i] == t.ends[i];
      } else if t.place.Leaving? || t.place.Publishing? || t.place.Gone? {
        var k := if |t.ends| < |t.started| then |t.ends| else |t.ends| - 1;
        assert t.ends[..k][i] == t.ends[i];
      }
    }
  }

  // ---- what the callers see --------------------------------------------------------------------

  /** status: an active run, else the last outcome, else "idle". */
  function StatusOf(e: Engine, flow: string): Option<Status> {
    if flow in e.runs then Some(e.runs[flow].status)
    else if flow in e.lastStatus then Some(e.lastStatus[flow])
    else None
  }

  /** statuses: both maps merged, `runs` last. */
  function Statuses(e: Engine): map<string, Status> {
    e.lastStatus + map f | f in e.runs :: e.runs[f].status
  }

  /** The two views agree, and an answer is terminal exactly when no run of the flow is live. */
  lemma StatusesAgree(e: Engine, flow: string)
    requires EngineOk(e)
    ensures StatusOf(e, flow) == if flow in Statuses(e) then Some(Statuses(e)[flow]) else None
    ensures flow in Statuses(e) ==> (Terminal(Statuses(e)[flow]) <==> !HasLive(e, flow))
  {
    hide ThreadOk;
  }

  // ---- the object ------------------------------------------------------------------------------

  datatype Error = NoError | AlreadyRunning | NotRunning | EmptyFlow

  /** The engine's two maps and the critical sections that change them; `model` adds the threads. */
  class FlowRunner {
    var runs: map<string, RunEntry>
    var lastStatus: map<string, Status>
    ghost var model: Engine

    ghost predicate Valid()
      reads this
    {
      EngineOk(model) && runs == model.runs && lastStatus == model.lastStatus
    }

    constructor ()
      ensures Valid() && model == Idle()
    {
      runs, lastStatus, model := map[], map[], Idle();
    }

    method ExecuteSection(flow: string, count: nat, ghost id: nat) returns (error: Error)
      requires Valid() && id !in model.threads
      modifies this
      ensures Valid()
      ensures error == if count == 0 then EmptyFlow else if flow in old(runs) then AlreadyRunning else NoError
      ensures model == if error.NoError? then Next(old(model), Execute(flow, count, id)) else old(model)
      ensures runs == (if error.NoError? then old(runs)[flow := RunEntry(false, Running)] else old(runs))
      ensures lastStatus == (if error.NoError? then old(lastStatus) - {flow} else old(lastStatus))
    {
      if count == 0 {
        return EmptyFlow;
      }
      if flow in runs {
        return AlreadyRunning;
      }
      hide EngineOk;
      ActionKeepsEngineOk(model, Execute(flow, count, id));
      model := Next(model, Execute(flow, count, id));
      runs := runs[flow := RunEntry(false, Running)];
      lastStatus := lastStatus - {flow};
      return NoError;
    }

    method StopSection(flow: string) returns (error: Error)
      requires Valid()
      modifies this
      ensures Valid()
      ensures error == if flow in old(runs) then NoError else NotRunning
      ensures model == if error.NoError? then Next(old(model), Stop(flow)) else old(model)
      ensures runs == (if flow in old(runs) then old(runs)[flow := RunEntry(true, Cancelling)] else old(runs))
      ensures lastStatus == old(lastStatus)
    {
      if flow !in runs {
        return NotRunning;
      }
      hide EngineOk;
      ActionKeepsEngineOk(model, Stop(flow));
      model := Next(model, Stop(flow));
      runs := runs[flow := RunEntry(true, Cancelling)];
      return NoError;
    }

    method LeaveSection(flow: string, final: Status, ghost id: nat)
      requires Valid() && Enabled(model, Leave(id))
      requires model.threads[id].flow == flow && model.threads[id].place.final == final
      modifies this
      ensures Valid() && model == Next(old(model), Leave(id))
      ensures runs == old(runs) - {flow} && lastStatus == old(lastStatus)[flow := final]
    {
      hide EngineOk;
      ActionKeepsEngineOk(model, Leave(id));
      model := Next(model, Leave(id));
      runs := runs - {flow};
      lastStatus := lastStatus[flow := final];
    }

    method StatusSection(flow: string) returns (s: Option<Status>)
      requires Valid()
      ensures s == if flow in runs then Some(runs[flow].status)
                   else if flow in lastStatus then Some(lastStatus[flow]) else None
      ensures s == StatusOf(model, flow)
    {
      if flow in runs {
        return Some(runs[flow].status);
      }
      return if flow in lastStatus then Some(lastStatus[flow]) else None;
    }
  }

  // ---- the loop of one run ---------------------------------------------------------------------

  /** run, alone: `cancelled`, `starts` and `ends` answer the i-th operation's check, start and wait. The loop
      stops at the first operation that is not completed, and its status says why. */
  method RunLoop(count: nat, cancelled: nat -> bool, starts: nat -> bool, ends: nat -> TaskEnd, stopSeen: nat -> bool)
    returns (final: Status, tried: nat)
    ensures tried <= count && forall i :: 0 <= i < tried ==> !cancelled(i) && starts(i) && ends(i).TaskCompleted?
    ensures final.Completed? <==> tried == count
    ensures final.Cancelled? <==>
              && tried < count
              && (cancelled(tried) ||
                  (starts(tried) && !ends(tried).TaskCompleted? && (stopSeen(tried) || ends(tried).TaskCancelled?)))
    ensures final.Failed? <==>
              && tried < count && !cancelled(tried)
              && (!starts(tried) || (ends(tried).TaskFailed? && !stopSeen(tried)))
  {
    final := Completed;
    for i := 0 to count
      invariant forall j :: 0 <= j < i ==> !cancelled(j) && starts(j) && ends(j).TaskCompleted?
      invariant final == Completed
    {
      if cancelled(i) {
        return Cancelled, i;
      }
      if !starts(i) {
        return Failed, i;
      }
      if !ends(i).TaskCompleted? {
        if stopSeen(i) || ends(i).TaskCancelled? {
          return Cancelled, i;
        }
        return Failed, i;
      }
    }
    tried := count;
  }
}
