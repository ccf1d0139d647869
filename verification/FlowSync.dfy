/** The flow engine and the sync engine running together: a flow's operations are sync tasks, started through
    startPathSync and awaited through waitTask, while other callers use the sync engine at the same time. */
module FlowSync {
  import F = FlowEngine
  import S = SyncEngine

  /** The busy key of an operation of a flow. */
  type Keys = (string, nat) -> string

  /** `tasks` lists the sync tasks of each run's operations, in the order they were started; `starting` holds the
      start attempt of a run that is inside startPathSync. */
  datatype Joint = Joint(flow: F.Engine, sync: S.Engine, tasks: map<nat, seq<nat>>, starting: map<nat, nat>)

  function Idle(client: bool): Joint {
    Joint(F.Idle(), S.Idle(client), map[], map[])
  }

  datatype Action =
    | FlowAlone(f: F.Action)
    | SyncAlone(s: S.Action)
    | Begin(run: nat, id: nat)
    | Enroll(run: nat)
    | Return(run: nat)
    | RefuseBusy(run: nat)
    | RefuseStopped(run: nat)
    | End(run: nat)

  /** How waitTask reports an outcome to the run. */
  function EndOf(outcome: S.Status): F.TaskEnd {
    match S.WaitResult(outcome)
    case ReturnsNormally => F.TaskCompleted
    case ThrowsCancelled => F.TaskCancelled
    case ThrowsFailed => F.TaskFailed
  }

  predicate IsStarting(j: Joint, run: nat) {
    run in j.flow.threads && j.flow.threads[run].place.Starting?
  }

  predicate IsWaiting(j: Joint, run: nat) {
    && run in j.flow.threads && j.flow.threads[run].place.Waiting?
    && run in j.tasks && j.flow.threads[run].place.i < |j.tasks[run]|
  }

  /** The sync task the run is waiting for. */
  function Awaited(j: Joint, run: nat): nat
    requires IsWaiting(j, run)
  {
    j.tasks[run][j.flow.threads[run].place.i]
  }

  /** A start attempt or a sync task of some run. */
  ghost predicate Owned(j: Joint, id: nat) {
    InStart(j, id) || exists run :: run in j.tasks && id in j.tasks[run]
  }

  ghost predicate InStart(j: Joint, id: nat) {
    exists run :: run in j.starting && j.starting[run] == id
  }

  ghost predicate Enabled(key: Keys, j: Joint, a: Action) {
    match a
    case FlowAlone(f) => !f.StartTask? && !f.TaskEnds? && F.Enabled(j.flow, f)
    // other callers of the sync engine do not know the ids of a run's start attempts and tasks, but a run's task
    // may be cancelled by anybody who finds it among the active ones
    case SyncAlone(s) =>
      && S.Enabled(j.sync, s)
      && (s.GiveUp? || s.Register? ==> !InStart(j, s.id))
      && (s.TakeOutcome? ==> !Owned(j, s.id))
    case Begin(run, id) =>
      && IsStarting(j, run) && run !in j.starting
      && S.Enabled(j.sync, S.Reserve(id, key(j.flow.threads[run].flow, j.flow.threads[run].place.i)))
    case Enroll(run) => IsStarting(j, run) && run in j.starting && S.Enabled(j.sync, S.Register(j.starting[run]))
    case Return(run) =>
      && IsStarting(j, run) && run in j.starting && run in j.tasks
      && j.starting[run] in j.sync.tasks && S.HasTask(j.sync.tasks[j.starting[run]])
    case RefuseBusy(run) => IsStarting(j, run) && run !in j.starting
    case RefuseStopped(run) => IsStarting(j, run) && run in j.starting && S.Enabled(j.sync, S.GiveUp(j.starting[run]))
    case End(run) => IsWaiting(j, run) && S.Enabled(j.sync, S.TakeOutcome(Awaited(j, run)))
  }

  function Next(key: Keys, j: Joint, a: Action): Joint
    requires Enabled(key, j, a)
  {
    match a
    case FlowAlone(f) =>
      j.(flow := F.Next(j.flow, f), tasks := if f.Execute? then j.tasks[f.id := []] else j.tasks)
    case SyncAlone(s) => j.(sync := S.Next(j.sync, s))
    case Begin(run, id) =>
      var t := j.flow.threads[run];
      j.(sync := S.Next(j.sync, S.Reserve(id, key(t.flow, t.place.i))), starting := j.starting[run := id])
    case Enroll(run) => j.(sync := S.Next(j.sync, S.Register(j.starting[run])))
    case Return(run) =>
      j.(flow := F.Next(j.flow, F.StartTask(run, true)), tasks := j.tasks[run := j.tasks[run] + [j.starting[run]]],
         starting := j.starting - {run})
    case RefuseBusy(run) => j.(flow := F.Next(j.flow, F.StartTask(run, false)))
    case RefuseStopped(run) =>
      j.(flow := F.Next(j.flow, F.StartTask(run, false)), sync := S.Next(j.sync, S.GiveUp(j.starting[run])),
         starting := j.starting - {run})
    case End(run) =>
      var id := Awaited(j, run);
      j.(flow := F.Next(j.flow, F.TaskEnds(run, EndOf(j.sync.outcomes[id]))), sync := S.Next(j.sync, S.TakeOutcome(id)))
  }

  // ---- invariant -------------------------------------------------------------------------------

  /** Every run has one sync task for each operation started, under that operation's key; one that has been waited
      for is over, and the run knows its outcome. */
  ghost predicate RunOk(key: Keys, j: Joint, run: nat)
    requires run in j.flow.threads
  {
    var t := j.flow.threads[run];
    && run in j.tasks && |j.tasks[run]| == |t.started| && |t.ends| <= |t.started|
    && (forall i :: 0 <= i < |j.tasks[run]| ==> Enrolled(j.sync, j.tasks[run][i], key(t.flow, i)))
    && (forall i :: 0 <= i < |t.ends| ==> EndsAs(j.sync, j.tasks[run][i], t.ends[i]))
  }

  ghost predicate Enrolled(e: S.Engine, id: nat, k: string) {
    id in e.tasks && S.HasTask(e.tasks[id]) && e.tasks[id].key == k
  }

  ghost predicate EndsAs(e: S.Engine, id: nat, end: F.TaskEnd) {
    id in e.tasks && e.tasks[id].stage.Over? && end == EndOf(e.tasks[id].stage.outcome)
  }

  ghost predicate RunsOk(key: Keys, j: Joint) {
    forall run :: run in j.flow.threads ==> RunOk(key, j, run)
  }

  /** A start attempt holds the key of the operation its run is about to start. */
  ghost predicate StartsOk(key: Keys, j: Joint) {
    forall run :: run in j.starting ==> StartOk(key, j, run)
  }

  ghost predicate StartOk(key: Keys, j: Joint, run: nat)
    requires run in j.starting
  {
    && IsStarting(j, run) && j.starting[run] in j.sync.tasks
    && j.sync.tasks[j.starting[run]].key == key(j.flow.threads[run].flow, j.flow.threads[run].place.i)
  }

  ghost predicate JointOk(key: Keys, j: Joint) {
    F.EngineOk(j.flow) && S.EngineOk(j.sync) && S.StoredOk(j.sync) && RunsOk(key, j) && StartsOk(key, j)
  }

  /** What no step of the sync engine undoes. */
  ghost predicate Later(e: S.Engine, n: S.Engine) {
    forall id :: id in e.tasks ==> LaterTask(e, n, id)
  }

  ghost predicate LaterTask(e: S.Engine, n: S.Engine, id: nat)
    requires id in e.tasks
  {
    && id in n.tasks && n.tasks[id].key == e.tasks[id].key
    && (S.HasTask(e.tasks[id]) ==> S.HasTask(n.tasks[id]))
    && (e.tasks[id].stage.Over? ==> n.tasks[id].stage == e.tasks[id].stage)
  }

  lemma SyncStepIsLater(e: S.Engine, a: S.Action)
    requires S.Enabled(e, a)
    ensures Later(e, S.Next(e, a))
  {
    hide S.Enabled, S.Next;
    forall id | id in e.tasks
      ensures LaterTask(e, S.Next(e, a), id)
    {
      StepIsLater(e, a, id);
    }
  }

  lemma StepIsLater(e: S.Engine, a: S.Action, id: nat)
    requires S.Enabled(e, a) && id in e.tasks
    ensures LaterTask(e, S.Next(e, a), id)
  {
  }

  lemma LaterRunOk(key: Keys, j: Joint, sync: S.Engine, run: nat)
    requires run in j.flow.threads && RunOk(key, j, run) && Later(j.sync, sync)
    ensures RunOk(key, j.(sync := sync), run)
  {
    var t := j.flow.threads[run];
    forall i | 0 <= i < |t.ends|
      ensures EndsAs(sync, j.tasks[run][i], t.ends[i])
    {
      assert EndsAs(j.sync, j.tasks[run][i], t.ends[i]);
    }
    forall i | 0 <= i < |j.tasks[run]|
      ensures Enrolled(sync, j.tasks[run][i], key(t.flow, i))
    {
      assert Enrolled(j.sync, j.tasks[run][i], key(t.flow, i));
    }
  }

  lemma LaterRunsOk(key: Keys, j: Joint, sync: S.Engine)
    requires RunsOk(key, j) && Later(j.sync, sync)
    ensures RunsOk(key, j.(sync := sync))
  {
    hide RunOk, Later;
    forall run | run in j.flow.threads
      ensures RunOk(key, j.(sync := sync), run)
    {
      LaterRunOk(key, j, sync, run);
    }
  }

  /** Steps of the flow engine alone neither start nor end an operation. */
  lemma FlowAloneKeepsHistory(e: F.Engine, a: F.Action, run: nat)
    requires F.Enabled(e, a) && !a.StartTask? && !a.TaskEnds? && run in e.threads
    ensures var n := F.Next(e, a);
            && run in n.threads && n.threads[run].started == e.threads[run].started
            && n.threads[run].ends == e.threads[run].ends
  {
  }

  lemma FlowAloneRunsOk(key: Keys, j: Joint, a: F.Action)
    requires RunsOk(key, j) && F.Enabled(j.flow, a) && !a.StartTask? && !a.TaskEnds?
    ensures RunsOk(key, j.(flow := F.Next(j.flow, a), tasks := if a.Execute? then j.tasks[a.id := []] else j.tasks))
  {
    var n := j.(flow := F.Next(j.flow, a), tasks := if a.Execute? then j.tasks[a.id := []] else j.tasks);
    forall run | run in n.flow.threads
      ensures RunOk(key, n, run)
    {
      if run in j.flow.threads {
        FlowAloneKeepsHistory(j.flow, a, run);
      }
    }
  }

  lemma ReturnRunsOk(key: Keys, j: Joint, run: nat)
    requires RunsOk(key, j) && StartsOk(key, j) && Enabled(key, j, Return(run)) && F.ThreadOk(j.flow.threads[run])
    ensures RunsOk(key, Next(key, j, Return(run)))
  {
    var n := Next(key, j, Return(run));
    assert RunOk(key, j, run) && StartOk(key, j, run);
    assert Enrolled(n.sync, j.starting[run], key(j.flow.threads[run].flow, |j.flow.threads[run].started|));
    hide F.ThreadOk;
    forall r | r in n.flow.threads
      ensures RunOk(key, n, r)
    {
      assert RunOk(key, j, r);
    }
  }

  // ---- start attempts --------------------------------------------------------------------------

  lemma LaterStartsOk(key: Keys, j: Joint, sync: S.Engine)
    requires StartsOk(key, j) && Later(j.sync, sync)
    ensures StartsOk(key, j.(sync := sync))
  {
    forall run | run in j.starting
      ensures StartOk(key, j.(sync := sync), run)
    {
      assert StartOk(key, j, run);
    }
  }

  /** A thread about to start an operation waits for the sync engine's answer. */
  ghost predicate StartsStay(e: F.Engine, n: F.Engine, except: set<nat>) {
    forall run :: run in e.threads && run !in except && e.threads[run].place.Starting? ==>
      run in n.threads && n.threads[run].place == e.threads[run].place && n.threads[run].flow == e.threads[run].flow
  }

  lemma FlowAloneStays(e: F.Engine, a: F.Action)
    requires F.Enabled(e, a) && !a.StartTask?
    ensures StartsStay(e, F.Next(e, a), {})
  {
  }

  lemma StartTaskStays(e: F.Engine, run: nat, ok: bool)
    requires F.Enabled(e, F.StartTask(run, ok))
    ensures StartsStay(e, F.Next(e, F.StartTask(run, ok)), {run})
  {
  }

  lemma StayingStartsOk(key: Keys, j: Joint, n: Joint, except: set<nat>)
    requires StartsOk(key, j) && StartsStay(j.flow, n.flow, except) && n.sync == j.sync
    requires n.starting == j.starting - except
    ensures StartsOk(key, n)
  {
    forall run | run in n.starting
      ensures StartOk(key, n, run)
    {
      assert StartOk(key, j, run);
    }
  }

  lemma BeginStartsOk(key: Keys, j: Joint, run: nat, id: nat)
    requires StartsOk(key, j) && Enabled(key, j, Begin(run, id))
    ensures StartsOk(key, Next(key, j, Begin(run, id)))
  {
    var n := Next(key, j, Begin(run, id));
    forall r | r in n.starting
      ensures StartOk(key, n, r)
    {
      if r != run {
        assert StartOk(key, j, r);
      }
    }
  }

  // ---- runs of flows ---------------------------------------------------------------------------

  lemma RefuseRunsOk(key: Keys, j: Joint, run: nat)
    requires RunsOk(key, j) && IsStarting(j, run)
    ensures RunsOk(key, j.(flow := F.Next(j.flow, F.StartTask(run, false))))
  {
    var n := j.(flow := F.Next(j.flow, F.StartTask(run, false)));
    forall r | r in n.flow.threads
      ensures RunOk(key, n, r)
    {
      assert RunOk(key, j, r);
    }
  }

  lemma StartingIrrelevant(key: Keys, j: Joint, starting: map<nat, nat>)
    requires RunsOk(key, j)
    ensures RunsOk(key, j.(starting := starting))
  {
    forall run | run in j.flow.threads
      ensures RunOk(key, j.(starting := starting), run)
    {
      assert RunOk(key, j, run);
    }
  }

  lemma EndRunsOk(key: Keys, j: Joint, run: nat)
    requires JointOk(key, j) && Enabled(key, j, End(run))
    ensures RunsOk(key, Next(key, j, End(run)))
  {
    hide F.EngineOk, S.EngineOk, S.StoredOk, F.ThreadOk, RunsOk, StartsOk, Later, EndsAs, F.Next, S.Next;
    var id := Awaited(j, run);
    var end := EndOf(j.sync.outcomes[id]);
    OutcomeEnds(j.sync, id);
    F.ThreadOf(j.flow, run);
    SyncStepIsLater(j.sync, S.TakeOutcome(id));
    EndOneRunsOk(key, j, run, id, end);
    LaterRunsOk(key, j.(flow := F.Next(j.flow, F.TaskEnds(run, end))), S.Next(j.sync, S.TakeOutcome(id)));
  }

  lemma OutcomeEnds(e: S.Engine, id: nat)
    requires S.EngineOk(e) && S.StoredOk(e) && id in e.outcomes && id in e.tasks
    ensures EndsAs(e, id, EndOf(e.outcomes[id]))
  {
    S.AgreesBefore(e, id);
    hide S.EngineOk, S.StoredOk;
  }

  lemma EndOneRunsOk(key: Keys, j: Joint, run: nat, id: nat, end: F.TaskEnd)
    requires RunsOk(key, j) && IsWaiting(j, run) && Awaited(j, run) == id && EndsAs(j.sync, id, end)
    requires F.ThreadOk(j.flow.threads[run])
    ensures RunsOk(key, j.(flow := F.Next(j.flow, F.TaskEnds(run, end))))
  {
    var n := j.(flow := F.Next(j.flow, F.TaskEnds(run, end)));
    assert RunOk(key, j, run);
    forall r | r in n.flow.threads
      ensures RunOk(key, n, r)
    {
      assert RunOk(key, j, r);
    }
  }

  /** Every step of either engine, and every joint one, keeps the invariants of both and the link between them. */
  lemma ActionKeepsJointOk(key: Keys, j: Joint, a: Action)
    requires JointOk(key, j) && Enabled(key, j, a)
    ensures JointOk(key, Next(key, j, a))
  {
    hide F.EngineOk, S.EngineOk, S.StoredOk, RunsOk, StartsOk, StartsStay, Later, F.Next, S.Next;
    match a
    case FlowAlone(f) =>
      F.ActionKeepsEngineOk(j.flow, f);
      FlowAloneRunsOk(key, j, f);
      FlowAloneStays(j.flow, f);
      StayingStartsOk(key, j, Next(key, j, a), {});
    case SyncAlone(s) => SyncStepKeeps(key, j, s);
    case Begin(run, id) =>
      var s := S.Reserve(id, key(j.flow.threads[run].flow, j.flow.threads[run].place.i));
      SyncStepKeeps(key, j, s);
      StartingIrrelevant(key, j.(sync := S.Next(j.sync, s)), j.starting[run := id]);
      BeginStartsOk(key, j, run, id);
    case Enroll(run) => SyncStepKeeps(key, j, S.Register(j.starting[run]));
    case Return(run) =>
      F.ActionKeepsEngineOk(j.flow, F.StartTask(run, true));
      F.ThreadOf(j.flow, run);
      ReturnRunsOk(key, j, run);
      StartTaskStays(j.flow, run, true);
      StayingStartsOk(key, j, Next(key, j, a), {run});
    case RefuseBusy(run) => RefuseKeeps(key, j, run);
    case RefuseStopped(run) =>
      var s := S.GiveUp(j.starting[run]);
      RefuseKeeps(key, j, run);
      SyncStepKeeps(key, Refused(j, run), s);
    case End(run) =>
      var id := Awaited(j, run);
      var f := F.TaskEnds(run, EndOf(j.sync.outcomes[id]));
      F.ActionKeepsEngineOk(j.flow, f);
      S.ActionKeepsEngineOk(j.sync, S.TakeOutcome(id));
      EndRunsOk(key, j, run);
      FlowAloneStays(j.flow, f);
      StayingStartsOk(key, j, j.(flow := F.Next(j.flow, f)), {});
      SyncStepIsLater(j.sync, S.TakeOutcome(id));
      LaterStartsOk(key, j.(flow := F.Next(j.flow, f)), S.Next(j.sync, S.TakeOutcome(id)));
  }

  lemma SyncStepKeeps(key: Keys, j: Joint, s: S.Action)
    requires JointOk(key, j) && S.Enabled(j.sync, s)
    ensures JointOk(key, j.(sync := S.Next(j.sync, s)))
  {
    hide F.EngineOk, S.EngineOk, S.StoredOk, RunsOk, StartsOk, Later, S.Next;
    S.ActionKeepsEngineOk(j.sync, s);
    SyncStepIsLater(j.sync, s);
    LaterRunsOk(key, j, S.Next(j.sync, s));
    LaterStartsOk(key, j, S.Next(j.sync, s));
  }

  /** A start refused by the sync engine. */
  function Refused(j: Joint, run: nat): Joint
    requires IsStarting(j, run)
  {
    j.(flow := F.Next(j.flow, F.StartTask(run, false)), starting := j.starting - {run})
  }

  lemma RefuseKeeps(key: Keys, j: Joint, run: nat)
    requires JointOk(key, j) && IsStarting(j, run)
    ensures JointOk(key, Refused(j, run))
    ensures run !in j.starting ==> Refused(j, run) == j.(flow := F.Next(j.flow, F.StartTask(run, false)))
  {
    hide F.EngineOk, S.EngineOk, S.StoredOk, RunsOk, StartsOk, StartsStay, F.Next;
    assert run !in j.starting ==> j.starting - {run} == j.starting;
    F.ActionKeepsEngineOk(j.flow, F.StartTask(run, false));
    RefuseRunsOk(key, j, run);
    StartingIrrelevant(key, j.(flow := F.Next(j.flow, F.StartTask(run, false))), j.starting - {run});
    StartTaskStays(j.flow, run, false);
    StayingStartsOk(key, j, Refused(j, run), {run});
  }

  // ---- runs ------------------------------------------------------------------------------------

  ghost predicate Step(key: Keys, j: Joint, a: Action, n: Joint) {
    Enabled(key, j, a) && n == Next(key, j, a)
  }

  ghost predicate Moves(key: Keys, j: Joint, n: Joint) {
    exists a :: Step(key, j, a, n)
  }

  ghost predicate History(key: Keys, states: seq<Joint>) {
    && states != [] && states[0] == Idle(states[0].sync.client)
    && forall i, k :: 0 <= i < k < |states| && k == i + 1 ==> Moves(key, states[i], states[k])
  }

  lemma IdleIsOk(key: Keys, client: bool)
    ensures JointOk(key, Idle(client))
  {
    F.IdleIsOk();
    S.IdleIsOk(client);
  }

  lemma {:induction false} HistoryIsOk(key: Keys, states: seq<Joint>, n: nat)
    requires History(key, states) && n < |states|
    ensures JointOk(key, states[n])
  {
    hide JointOk, Enabled, Next;
    if n == 0 {
      IdleIsOk(key, states[0].sync.client);
    } else {
      HistoryIsOk(key, states, n - 1);
      assert Moves(key, states[n - 1], states[n]);
      var a :| Step(key, states[n - 1], a, states[n]);
      ActionKeepsJointOk(key, states[n - 1], a);
    }
  }

  /** Outcome of the i-th operation of a run, once the run knows it. */
  lemma OperationOutcome(key: Keys, j: Joint, run: nat, i: nat)
    requires JointOk(key, j) && run in j.flow.threads && i < |j.flow.threads[run].ends|
    requires j.flow.threads[run].ends[i].TaskCompleted?
    ensures run in j.tasks && i < |j.tasks[run]| && j.tasks[run][i] in j.sync.tasks
    ensures var t := j.sync.tasks[j.tasks[run][i]];
            && t.stage.Over? && t.stage.outcome.Completed? && !t.stage.failed
            && t.key == key(j.flow.threads[run].flow, i)
  {
    hide F.EngineOk, S.EngineOk, S.StoredOk;
    assert RunOk(key, j, run);
    assert EndsAs(j.sync, j.tasks[run][i], j.flow.threads[run].ends[i]);
    S.AgreesBefore(j.sync, j.tasks[run][i]);
  }

  /** What a run takes for the end of an operation is what became of the operation's sync task. */
  lemma EndsAreOutcomes(key: Keys, states: seq<Joint>, n: nat, run: nat, i: nat)
    requires History(key, states) && n < |states| && run in states[n].flow.threads
    requires i < |states[n].flow.threads[run].ends|
    ensures var j, end := states[n], states[n].flow.threads[run].ends[i];
            && run in j.tasks && i < |j.tasks[run]| && j.tasks[run][i] in j.sync.tasks
            && var t := j.sync.tasks[j.tasks[run][i]];
               && t.stage.Over? && t.key == key(j.flow.threads[run].flow, i)
               && (end.TaskCompleted? <==> t.stage.outcome.Completed?)
               && (end.TaskCancelled? <==> t.stage.outcome.Cancelled?)
               && (end.TaskFailed? <==> t.stage.outcome.Failed?)
  {
    HistoryIsOk(key, states, n);
    var j := states[n];
    assert RunOk(key, j, run);
    assert EndsAs(j.sync, j.tasks[run][i], j.flow.threads[run].ends[i]);
    assert Enrolled(j.sync, j.tasks[run][i], key(j.flow.threads[run].flow, i));
    S.AgreesBefore(j.sync, j.tasks[run][i]);
    hide History, F.EngineOk, S.EngineOk, S.StoredOk;
  }

  /** In every interleaving of flows, sync tasks, cancellations, other callers and detachments of the client: a flow
      is announced as completed only if it ran a sync task under the key of each of its operations, and none of
      them had a transfer that failed. Whether there was a transfer is CompletedFlowTransferred's matter. */
  lemma CompletedMeansNoneFailed(key: Keys, states: seq<Joint>, n: nat, run: nat)
    requires History(key, states) && n < |states| && run in states[n].flow.threads
    requires F.Completed in states[n].flow.threads[run].terminals
    ensures var j := states[n];
            && run in j.tasks && |j.tasks[run]| == j.flow.threads[run].count
            && forall i :: 0 <= i < |j.tasks[run]| ==>
                 FinishedUnder(j, j.tasks[run][i], key(j.flow.threads[run].flow, i))
  {
    HistoryIsOk(key, states, n);
    var j := states[n];
    var t := j.flow.threads[run];
    F.ThreadOf(j.flow, run);
    assert RunOk(key, j, run);
    AnnouncedCompleted(t);
    hide History, JointOk, F.ThreadOk, RunOk;
    forall i | 0 <= i < |j.tasks[run]|
      ensures FinishedUnder(j, j.tasks[run][i], key(t.flow, i))
    {
      OperationOutcome(key, j, run, i);
    }
  }

  ghost predicate FinishedUnder(j: Joint, id: nat, k: string) {
    && id in j.sync.tasks && j.sync.tasks[id].key == k
    && j.sync.tasks[id].stage.Over? && j.sync.tasks[id].stage.outcome.Completed? && !j.sync.tasks[id].stage.failed
  }

  // ---- completed without a transfer ------------------------------------------------------------

  /** What the sync engine goes through. */
  function Projection(states: seq<Joint>): (r: seq<S.Engine>)
    ensures |r| == |states| && forall i :: 0 <= i < |r| ==> r[i] == states[i].sync
  {
    seq(|states|, i requires 0 <= i < |states| => states[i].sync)
  }

  lemma JointMovesSync(key: Keys, j: Joint, a: Action)
    requires Enabled(key, j, a)
    ensures S.Moves(j.sync, Next(key, j, a).sync)
  {
    hide S.Enabled, S.Next, F.Enabled, F.Next;
    match a
    case FlowAlone(_) =>
    case SyncAlone(s) => assert S.Step(j.sync, s, Next(key, j, a).sync);
    case Begin(run, id) =>
      var s := S.Reserve(id, key(j.flow.threads[run].flow, j.flow.threads[run].place.i));
      assert S.Step(j.sync, s, Next(key, j, a).sync);
    case Enroll(run) => assert S.Step(j.sync, S.Register(j.starting[run]), Next(key, j, a).sync);
    case Return(_) =>
    case RefuseBusy(_) =>
    case RefuseStopped(run) => assert S.Step(j.sync, S.GiveUp(j.starting[run]), Next(key, j, a).sync);
    case End(run) => assert S.Step(j.sync, S.TakeOutcome(Awaited(j, run)), Next(key, j, a).sync);
  }

  lemma ProjectionIsRun(key: Keys, states: seq<Joint>)
    requires History(key, states)
    ensures S.Run(Projection(states))
  {
    hide Enabled, Next, S.Moves;
    var r := Projection(states);
    forall i, k | 0 <= i < k < |r| && k == i + 1
      ensures S.Moves(r[i], r[k])
    {
      assert Moves(key, states[i], states[k]);
      var a :| Step(key, states[i], a, states[k]);
      JointMovesSync(key, states[i], a);
    }
  }

  /** The move from state k calls the transfer of the i-th operation of the run. */
  ghost predicate CallsOperation(states: seq<Joint>, k: nat, id: nat) {
    S.CallsAt(Projection(states), k, id)
  }

  ghost predicate Transferred(j: Joint, id: nat) {
    id in j.sync.tasks && j.sync.tasks[id].ran
  }

  /** Each operation of a flow announced as completed was called by one move of the history, and made its transfer if
      and only if a client was attached just then. */
  lemma CompletedFlowTransferred(key: Keys, states: seq<Joint>, n: nat, run: nat, i: nat)
    requires History(key, states) && n < |states| && run in states[n].flow.threads
    requires F.Completed in states[n].flow.threads[run].terminals
    requires i < states[n].flow.threads[run].count
    ensures run in states[n].tasks && |states[n].tasks[run]| == states[n].flow.threads[run].count
    ensures var id := states[n].tasks[run][i];
            && (exists k: nat :: k < n && CallsOperation(states, k, id))
            && forall k: nat :: k < n && CallsOperation(states, k, id) ==>
                 (Transferred(states[n], id) <==> states[k].sync.client)
  {
    CompletedMeansNoneFailed(key, states, n, run);
    ProjectionIsRun(key, states);
    var id := states[n].tasks[run][i];
    assert FinishedUnder(states[n], id, key(states[n].flow.threads[run].flow, i));
    hide History, S.Run, S.CallsAt;
    S.RanIffClientAtCall(Projection(states), n, id);
    var c: nat :| c < n && S.CallsAt(Projection(states), c, id);
    assert CallsOperation(states, c, id);
  }

  /** So with a client attached all the time, a flow announced as completed has transferred every operation. */
  lemma CompletedWithClient(key: Keys, states: seq<Joint>, n: nat, run: nat)
    requires History(key, states) && n < |states| && run in states[n].flow.threads
    requires F.Completed in states[n].flow.threads[run].terminals
    requires forall k :: 0 <= k < n ==> states[k].sync.client
    ensures run in states[n].tasks && |states[n].tasks[run]| == states[n].flow.threads[run].count
    ensures forall i :: 0 <= i < |states[n].tasks[run]| ==> Transferred(states[n], states[n].tasks[run][i])
  {
    CompletedMeansNoneFailed(key, states, n, run);
    hide History;
    forall i | 0 <= i < |states[n].tasks[run]|
      ensures Transferred(states[n], states[n].tasks[run][i])
    {
      CompletedFlowTransferred(key, states, n, run, i);
      var k: nat :| k < n && CallsOperation(states, k, states[n].tasks[run][i]);
    }
  }

  lemma AnnouncedCompleted(t: F.Thread)
    requires F.ThreadOk(t) && F.Completed in t.terminals
    ensures |t.started| == |t.ends| == t.count && forall i :: 0 <= i < |t.ends| ==> t.ends[i].TaskCompleted?
  {
  }

  /** The transfers of one run never overlap: when an operation has been started, those of all earlier operations
      are over and did not fail. */
  lemma TransfersDoNotOverlap(key: Keys, states: seq<Joint>, n: nat, run: nat, i: nat, k: nat)
    requires History(key, states) && n < |states| && run in states[n].flow.threads
    requires run in states[n].tasks && i < k < |states[n].tasks[run]|
    ensures var j := states[n];
            && j.tasks[run][i] in j.sync.tasks
            && j.sync.tasks[j.tasks[run][i]].stage.Over? && !j.sync.tasks[j.tasks[run][i]].stage.failed
  {
    HistoryIsOk(key, states, n);
    var j := states[n];
    F.ThreadOf(j.flow, run);
    F.ThreadHistory(j.flow.threads[run]);
    assert RunOk(key, j, run);
    hide History, JointOk, F.ThreadOk, RunOk;
    OperationOutcome(key, j, run, i);
  }

  // ---- a completed flow that transferred nothing -----------------------------------------------

  const FLOW := "f"

  /** The flow engine with one run of one operation. */
  function FlowAt(place: F.Place, started: bool, ended: bool): F.Engine {
    var t := F.Thread(FLOW, 1, place, if started then [0] else [], if ended then [F.TaskCompleted] else [], 0, false,
                      if place.Gone? then [place.final] else []);
    F.Engine(if F.Live(t) then map[FLOW := F.RunEntry(false, F.Running)] else map[],
             if F.Live(t) then map[] else map[FLOW := F.Completed], map[0 := t])
  }

  /** The sync engine without a client, with the operation's task. */
  function SyncAt(key: Keys, t: S.Task): S.Engine {
    S.Engine(false, if S.HasTask(t) && !t.stage.Over? then {0} else {},
             if t.stage.Over? && t.taken == [] then map[0 := t.stage.outcome] else map[],
             if S.Holds(t) then {key(FLOW, 0)} else {}, map[0 := t])
  }

  /** A task whose transfer is not made. */
  function Idler(key: Keys, stage: S.Stage): S.Task {
    S.Task(key(FLOW, 0), stage, if stage.Closing? || stage.Leaving? || stage.Over? then S.Completed else S.Running,
           false, false, if stage.Over? then 1 else 0, [])
  }

  function Waited(key: Keys): S.Engine {
    SyncAt(key, Idler(key, S.Over(false, false, S.Completed)).(taken := [S.Completed]))
  }

  lemma FlowStarts()
    ensures F.Step(F.Idle(), F.Execute(FLOW, 1, 0), FlowAt(F.Checking(0), false, false))
    ensures F.Step(FlowAt(F.Checking(0), false, false), F.Check(0), FlowAt(F.Starting(0), false, false))
    ensures F.Step(FlowAt(F.Starting(0), false, false), F.StartTask(0, true), FlowAt(F.Waiting(0), true, false))
  {
    assert F.Idle().lastStatus - {FLOW} == map[];
    assert F.Next(FlowAt(F.Starting(0), false, false), F.StartTask(0, true)).threads[0].started == [0];
  }

  lemma FlowEnds()
    ensures F.Step(FlowAt(F.Waiting(0), true, false), F.TaskEnds(0, F.TaskCompleted), FlowAt(F.Checking(1), true, true))
    ensures F.Step(FlowAt(F.Checking(1), true, true), F.Check(0), FlowAt(F.Leaving(F.Completed), true, true))
  {
    assert F.Next(FlowAt(F.Waiting(0), true, false), F.TaskEnds(0, F.TaskCompleted)).threads[0].ends
      == [F.TaskCompleted];
  }

  lemma FlowLeaves()
    ensures F.Step(FlowAt(F.Leaving(F.Completed), true, true), F.Leave(0),
                   FlowAt(F.Publishing(F.Completed), true, true))
    ensures F.Step(FlowAt(F.Publishing(F.Completed), true, true), F.PublishTerminal(0),
                   FlowAt(F.Gone(F.Completed), true, true))
  {
    assert FlowAt(F.Leaving(F.Completed), true, true).runs - {FLOW} == map[];
    assert F.Next(FlowAt(F.Publishing(F.Completed), true, true), F.PublishTerminal(0)).threads[0].terminals
      == [F.Completed];
  }

  lemma SyncStarts(key: Keys)
    ensures S.Step(S.Idle(false), S.Reserve(0, key(FLOW, 0)), SyncAt(key, Idler(key, S.Reserved)))
    ensures S.Step(SyncAt(key, Idler(key, S.Reserved)), S.Register(0), SyncAt(key, Idler(key, S.Registered)))
    ensures S.Step(SyncAt(key, Idler(key, S.Registered)), S.CallClient(0), SyncAt(key, Idler(key, S.Transferring)))
    ensures S.Step(SyncAt(key, Idler(key, S.Transferring)), S.TransferReturns(0, false),
                   SyncAt(key, Idler(key, S.Returned(false))))
  {
  }

  lemma SyncEnds(key: Keys)
    ensures S.Step(SyncAt(key, Idler(key, S.Returned(false))), S.Decide(0),
                   SyncAt(key, Idler(key, S.Deciding(false, false, S.Completed))))
    ensures S.Step(SyncAt(key, Idler(key, S.Deciding(false, false, S.Completed))), S.SetStatus(0),
                   SyncAt(key, Idler(key, S.Closing(false, false))))
    ensures S.Step(SyncAt(key, Idler(key, S.Closing(false, false))), S.ReadStatus(0),
                   SyncAt(key, Idler(key, S.Leaving(false, false, S.Completed))))
  {
  }

  lemma SyncLeaves(key: Keys)
    ensures S.Step(SyncAt(key, Idler(key, S.Leaving(false, false, S.Completed))), S.CleanUp(0),
                   SyncAt(key, Idler(key, S.Over(false, false, S.Completed))))
    ensures S.Step(SyncAt(key, Idler(key, S.Over(false, false, S.Completed))), S.TakeOutcome(0), Waited(key))
  {
    var e := SyncAt(key, Idler(key, S.Over(false, false, S.Completed)));
    assert e.outcomes - {0} == map[];
    assert S.Next(e, S.TakeOutcome(0)).tasks[0].taken == [S.Completed];
  }

  /** The run's thread at a place, the sync engine at a state, and whether the run is inside startPathSync. */
  function Scene(place: F.Place, started: bool, ended: bool, sync: S.Engine, starting: bool): Joint {
    Joint(FlowAt(place, started, ended), sync, map[0 := if started then [0] else []],
          if starting then map[0 := 0] else map[])
  }

  /** A flow is executed, the client is detached, and the flow's operation is called without it. */
  function Quiet(key: Keys, client: bool, i: nat): Joint
    requires i < 17
  {
    if i == 0 then Idle(client)
    else if i == 1 then Scene(F.Checking(0), false, false, S.Idle(client), false)
    else if i == 2 then Scene(F.Checking(0), false, false, S.Idle(false), false)
    else if i == 3 then Scene(F.Starting(0), false, false, S.Idle(false), false)
    else if i == 4 then Scene(F.Starting(0), false, false, SyncAt(key, Idler(key, S.Reserved)), true)
    else if i == 5 then Scene(F.Starting(0), false, false, SyncAt(key, Idler(key, S.Registered)), true)
    else if i == 13 then Scene(F.Checking(1), true, true, Waited(key), false)
    else if i == 14 then Scene(F.Leaving(F.Completed), true, true, Waited(key), false)
    else if i == 15 then Scene(F.Publishing(F.Completed), true, true, Waited(key), false)
    else if i == 16 then Scene(F.Gone(F.Completed), true, true, Waited(key), false)
    else Scene(F.Waiting(0), true, false, SyncAt(key, Idler(key, QuietStage(i))), false)
  }

  function QuietStage(i: nat): S.Stage
    requires 6 <= i < 13
  {
    if i == 6 then S.Registered
    else if i == 7 then S.Transferring
    else if i == 8 then S.Returned(false)
    else if i == 9 then S.Deciding(false, false, S.Completed)
    else if i == 10 then S.Closing(false, false)
    else if i == 11 then S.Leaving(false, false, S.Completed)
    else S.Over(false, false, S.Completed)
  }

  function QuietAction(i: nat): Action
    requires i < 16
  {
    if i == 0 then FlowAlone(F.Execute(FLOW, 1, 0))
    else if i == 1 then SyncAlone(S.SetClient(false))
    else if i == 2 then FlowAlone(F.Check(0))
    else if i == 3 then Begin(0, 0)
    else if i == 4 then Enroll(0)
    else if i == 5 then Return(0)
    else if i == 6 then SyncAlone(S.CallClient(0))
    else if i == 7 then SyncAlone(S.TransferReturns(0, false))
    else if i == 8 then SyncAlone(S.Decide(0))
    else if i == 9 then SyncAlone(S.SetStatus(0))
    else if i == 10 then SyncAlone(S.ReadStatus(0))
    else if i == 11 then SyncAlone(S.CleanUp(0))
    else if i == 12 then End(0)
    else if i == 13 then FlowAlone(F.Check(0))
    else if i == 14 then FlowAlone(F.Leave(0))
    else FlowAlone(F.PublishTerminal(0))
  }

  lemma QuietExecutes(key: Keys, client: bool, i: nat)
    requires i < 3
    ensures Step(key, Quiet(key, client, i), QuietAction(i), Quiet(key, client, i + 1))
  {
    FlowStarts();
    hide F.Next;
  }

  lemma QuietStarts(key: Keys, client: bool, i: nat)
    requires 3 <= i < 6
    ensures Step(key, Quiet(key, client, i), QuietAction(i), Quiet(key, client, i + 1))
  {
    FlowStarts();
    SyncStarts(key);
    hide F.Next, S.Next;
    var q := Quiet(key, client, i);
    if i == 5 {
      assert q.starting - {0} == map[];
      assert q.tasks[0] + [q.starting[0]] == [0];
    }
  }

  lemma QuietTransfers(key: Keys, client: bool, i: nat)
    requires 6 <= i < 9
    ensures Step(key, Quiet(key, client, i), QuietAction(i), Quiet(key, client, i + 1))
  {
    SyncStarts(key);
    SyncEnds(key);
    hide F.Next, S.Next, SyncAt, FlowAt;
  }

  lemma QuietCleansUp(key: Keys, client: bool, i: nat)
    requires 9 <= i < 12
    ensures Step(key, Quiet(key, client, i), QuietAction(i), Quiet(key, client, i + 1))
  {
    SyncEnds(key);
    SyncLeaves(key);
    hide F.Next, S.Next, SyncAt, FlowAt;
  }

  lemma QuietReturns(key: Keys, client: bool)
    ensures Step(key, Quiet(key, client, 12), QuietAction(12), Quiet(key, client, 13))
  {
    FlowEnds();
    SyncLeaves(key);
    hide F.Next, S.Next;
  }

  lemma QuietEnds(key: Keys, client: bool, i: nat)
    requires 13 <= i < 16
    ensures Step(key, Quiet(key, client, i), QuietAction(i), Quiet(key, client, i + 1))
  {
    FlowEnds();
    FlowLeaves();
    hide F.Next, S.Next, SyncAt;
  }

  lemma QuietSteps(key: Keys, client: bool, i: nat)
    requires i < 16
    ensures Moves(key, Quiet(key, client, i), Quiet(key, client, i + 1))
  {
    hide Quiet, QuietAction, Enabled, Next;
    if i < 3 {
      QuietExecutes(key, client, i);
    } else if i < 6 {
      QuietStarts(key, client, i);
    } else if i < 9 {
      QuietTransfers(key, client, i);
    } else if i < 12 {
      QuietCleansUp(key, client, i);
    } else if i == 12 {
      QuietReturns(key, client);
    } else {
      QuietEnds(key, client, i);
    }
    assert Step(key, Quiet(key, client, i), QuietAction(i), Quiet(key, client, i + 1));
  }

  /** A client that is detached while a flow runs, attached as it may have been when the flow was started: the flow is
      announced as completed, and its one operation never made a transfer. */
  lemma CompletedWithoutTransfer(key: Keys, client: bool) returns (states: seq<Joint>)
    ensures History(key, states) && |states| == 17 && states[0].sync.client == client
    ensures var j := states[16];
            && 0 in j.flow.threads && F.Completed in j.flow.threads[0].terminals
            && 0 in j.tasks && |j.tasks[0]| == j.flow.threads[0].count == 1 && !Transferred(j, j.tasks[0][0])
  {
    states := seq(17, i requires 0 <= i < 17 => Quiet(key, client, i));
    forall i, k | 0 <= i < k < 17 && k == i + 1
      ensures Moves(key, states[i], states[k])
    {
      QuietSteps(key, client, i);
    }
    assert states[0] == Idle(client);
    assert F.Completed in states[16].flow.threads[0].terminals;
  }
}
