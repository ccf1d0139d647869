/** What callers have done and what the flow engine answers: the status of a flow, the end of a run and the operations
    it starts, told from the list of actions alone. */
module FlowHistory {
  import opened Wrappers
  import opened FlowEngine

  /** The engine goes through these states, one for each action and the idle one before. */
  ghost predicate Plays(actions: seq<Action>, states: seq<Engine>) {
    && |states| == |actions| + 1 && states[0] == Idle()
    && forall i :: 0 <= i < |actions| ==> Follows(actions, states, i)
  }

  ghost predicate Follows(actions: seq<Action>, states: seq<Engine>, i: nat)
    requires i < |actions| && |states| == |actions| + 1
  {
    Step(states[i], actions[i], states[i + 1])
  }

  // ---- reading the list ------------------------------------------------------------------------

  /** An action of the thread of a run. */
  predicate Own(a: Action, id: nat) {
    match a
    case Check(i) => i == id
    case StartTask(i, _) => i == id
    case Poll(i) => i == id
    case TaskEnds(i, _) => i == id
    case Classify(i) => i == id
    case Leave(i) => i == id
    case PublishTerminal(i) => i == id
    case _ => false
  }

  /** One past the last action of the run before n and after k, or 0. */
  function LastOwn(actions: seq<Action>, k: nat, n: nat, id: nat): (o: nat)
    requires n <= |actions|
    ensures o <= n && (o > 0 ==> k + 1 < o && Own(actions[o - 1], id))
  {
    if n <= k + 1 then 0 else if Own(actions[n - 1], id) then n else LastOwn(actions, k, n - 1, id)
  }

  /** stop was called for the flow after k and before n. */
  predicate StopsSince(actions: seq<Action>, k: nat, n: nat, flow: string)
    requires n <= |actions|
  {
    n > k + 1 && (actions[n - 1] == Stop(flow) || StopsSince(actions, k, n - 1, flow))
  }

  /** Sync tasks of the run that completed after k and before n. */
  function Done(actions: seq<Action>, k: nat, n: nat, id: nat): nat
    requires n <= |actions|
  {
    if n <= k + 1 then 0
    else Done(actions, k, n - 1, id) + if actions[n - 1] == TaskEnds(id, TaskCompleted) then 1 else 0
  }

  /** Sync tasks of the run that were started after k and before n. */
  function Starts(actions: seq<Action>, k: nat, n: nat, id: nat): nat
    requires n <= |actions|
  {
    if n <= k + 1 then 0
    else Starts(actions, k, n - 1, id) + if actions[n - 1] == StartTask(id, true) then 1 else 0
  }

  /** The wait before the error at o - 1 ended because somebody cancelled. */
  predicate WaitCancelled(actions: seq<Action>, k: nat, o: nat, id: nat)
    requires o < |actions|
  {
    var w := LastOwn(actions, k, o, id);
    w > 0 && (actions[w - 1].Poll? || actions[w - 1] == TaskEnds(id, TaskCancelled))
  }

  /** How the run executed at k ends if actions[o - 1] is its last action: completed if every operation is, failed if a
      sync task could not be started, cancelled if a stop was seen before an operation, and after an error cancelled
      or failed according to whether anybody asked for it. None if it does not end there. */
  function Verdict(actions: seq<Action>, k: nat, o: nat, id: nat, flow: string, count: nat): Option<Status>
    requires 0 < o <= |actions|
  {
    match actions[o - 1]
    case Check(_) =>
      if Done(actions, k, o - 1, id) == count then Some(Completed)
      else if StopsSince(actions, k, o - 1, flow) then Some(Cancelled)
      else None
    case StartTask(_, ok) => if ok then None else Some(Failed)
    case Classify(_) =>
      Some(if StopsSince(actions, k, o - 1, flow) || WaitCancelled(actions, k, o - 1, id) then Cancelled else Failed)
    case _ => None
  }

  // ---- one run ---------------------------------------------------------------------------------

  /** Where the thread of a run is, told from the actions. */
  ghost predicate Tells(actions: seq<Action>, k: nat, n: nat, id: nat, flow: string, count: nat, t: Thread)
    requires n <= |actions|
  {
    && t.flow == flow && t.count == count
    && (Live(t) ==> t.stopped == StopsSince(actions, k, n, flow))
    && Stands(actions, k, n, LastOwn(actions, k, n, id), id, flow, count, t.place)
  }

  ghost predicate Stands(actions: seq<Action>, k: nat, n: nat, o: nat, id: nat, flow: string, count: nat, place: Place)
    requires o <= n <= |actions|
  {
    match place
    case Checking(i) => i == Done(actions, k, n, id) && (o == 0 || actions[o - 1] == TaskEnds(id, TaskCompleted))
    case Starting(i) =>
      && i == Done(actions, k, n, id) && o > 0
      && actions[o - 1].Check? && !StopsSince(actions, k, o - 1, flow) && Verdict(actions, k, o, id, flow, count).None?
    case Waiting(i) => i == Done(actions, k, n, id) && o > 0 && actions[o - 1] == StartTask(id, true)
    case Erring(_, error) =>
      && o > 0 && (actions[o - 1].Poll? || (actions[o - 1].TaskEnds? && !actions[o - 1].end.TaskCompleted?))
      && (error.TaskCancelled? <==> actions[o - 1].Poll? || actions[o - 1] == TaskEnds(id, TaskCancelled))
    case Leaving(final) => o > 0 && Verdict(actions, k, o, id, flow, count) == Some(final)
    case Publishing(final) => o > 0 && LeftAs(actions, k, o, id, flow, count, final)
    case Gone(final) =>
      && o > 0 && actions[o - 1].PublishTerminal?
      && LeftAs(actions, k, LastOwn(actions, k, o - 1, id), id, flow, count, final)
  }

  /** actions[o - 1] is the run's leave, and the verdict before it was this. */
  ghost predicate LeftAs(actions: seq<Action>, k: nat, o: nat, id: nat, flow: string, count: nat, final: Status)
    requires o <= |actions|
  {
    && o > 0 && actions[o - 1].Leave?
    && var v := LastOwn(actions, k, o - 1, id);
       v > 0 && Verdict(actions, k, v, id, flow, count) == Some(final)
  }

  /** The action of somebody else leaves the thread where it is; a stop of its flow marks it while it lives. */
  lemma OthersStep(e: Engine, a: Action, id: nat)
    requires Enabled(e, a) && id in e.threads && !Own(a, id)
    ensures id in Next(e, a).threads
    ensures var t, u := e.threads[id], Next(e, a).threads[id];
            && u.flow == t.flow && u.count == t.count && u.place == t.place
            && u.stopped == (t.stopped || (Live(t) && a == Stop(t.flow)))
  {
  }

  lemma OthersTell(actions: seq<Action>, k: nat, n: nat, id: nat, flow: string, count: nat, t: Thread, u: Thread)
    requires k < n < |actions| && !Own(actions[n], id) && Tells(actions, k, n, id, flow, count, t)
    requires u.flow == t.flow && u.count == t.count && u.place == t.place
    requires u.stopped == (t.stopped || (Live(t) && actions[n] == Stop(t.flow)))
    ensures Tells(actions, k, n + 1, id, flow, count, u)
  {
    assert LastOwn(actions, k, n + 1, id) == LastOwn(actions, k, n, id);
    assert Done(actions, k, n + 1, id) == Done(actions, k, n, id);
    hide LastOwn, Done, Verdict, LeftAs;
  }

  lemma OwnStep(e: Engine, a: Action, id: nat)
    requires Enabled(e, a) && Own(a, id)
    ensures id in e.threads && id in Next(e, a).threads
    ensures var t, u := e.threads[id], Next(e, a).threads[id];
            u.flow == t.flow && u.count == t.count && u.stopped == t.stopped && Live(t) == (Live(u) || a.Leave?)
  {
  }

  lemma OwnTells(actions: seq<Action>, k: nat, n: nat, id: nat, flow: string, count: nat, e: Engine)
    requires k < n < |actions| && Own(actions[n], id) && Enabled(e, actions[n]) && id in e.threads
    requires Tells(actions, k, n, id, flow, count, e.threads[id])
    requires Live(e.threads[id]) ==> IsCancelled(e, flow) == e.threads[id].stopped
    ensures id in Next(e, actions[n]).threads
    ensures Tells(actions, k, n + 1, id, flow, count, Next(e, actions[n]).threads[id])
  {
    OwnStep(e, actions[n], id);
    assert LastOwn(actions, k, n + 1, id) == n + 1;
    assert StopsSince(actions, k, n + 1, flow) == StopsSince(actions, k, n, flow);
    OwnStands(actions, k, n, id, flow, count, e);
    hide Stands, Next;
  }

  lemma OwnStands(actions: seq<Action>, k: nat, n: nat, id: nat, flow: string, count: nat, e: Engine)
    requires k < n < |actions| && Own(actions[n], id) && Enabled(e, actions[n]) && id in e.threads
    requires Tells(actions, k, n, id, flow, count, e.threads[id])
    requires Live(e.threads[id]) ==> IsCancelled(e, flow) == e.threads[id].stopped
    ensures id in Next(e, actions[n]).threads
    ensures Stands(actions, k, n + 1, n + 1, id, flow, count, Next(e, actions[n]).threads[id].place)
  {
    hide LastOwn, StopsSince;
  }

  lemma {:induction false} PlaysOk(actions: seq<Action>, states: seq<Engine>, n: nat)
    requires Plays(actions, states) && n <= |actions|
    ensures EngineOk(states[n])
  {
    hide EngineOk, Enabled, Next;
    if n == 0 {
      IdleIsOk();
    } else {
      PlaysOk(actions, states, n - 1);
      StepAt(actions, states, n - 1);
      ActionKeepsEngineOk(states[n - 1], actions[n - 1]);
    }
  }

  /** An execute that was accepted. */
  ghost predicate Executed(actions: seq<Action>, states: seq<Engine>, k: nat, id: nat, flow: string, count: nat) {
    Plays(actions, states) && k < |actions| && actions[k] == Execute(flow, count, id)
  }

  /** From its execute on, the thread of a run is where the actions put it. */
  lemma {:induction false} RunTells(actions: seq<Action>, states: seq<Engine>, k: nat, n: nat, id: nat, flow: string,
                                    count: nat)
    requires Executed(actions, states, k, id, flow, count) && k < n <= |actions|
    ensures id in states[n].threads && Tells(actions, k, n, id, flow, count, states[n].threads[id])
  {
    hide EngineOk, Tells, Next, Enabled, StopsSince, Done, LastOwn;
    StepAt(actions, states, n - 1);
    if n == k + 1 {
      FirstTells(actions, k, id, flow, count, states[k]);
    } else {
      RunTells(actions, states, k, n - 1, id, flow, count);
      PlaysOk(actions, states, n - 1);
      ThreadOf(states[n - 1], id);
      TellsFlow(actions, k, n - 1, id, flow, count, states[n - 1].threads[id]);
      if Own(actions[n - 1], id) {
        OwnTells(actions, k, n - 1, id, flow, count, states[n - 1]);
      } else {
        OthersStep(states[n - 1], actions[n - 1], id);
        OthersTell(actions, k, n - 1, id, flow, count, states[n - 1].threads[id], states[n].threads[id]);
      }
    }
  }

  lemma TellsFlow(actions: seq<Action>, k: nat, n: nat, id: nat, flow: string, count: nat, t: Thread)
    requires n <= |actions| && Tells(actions, k, n, id, flow, count, t)
    ensures t.flow == flow
  {
  }

  lemma FirstTells(actions: seq<Action>, k: nat, id: nat, flow: string, count: nat, e: Engine)
    requires k < |actions| && actions[k] == Execute(flow, count, id) && Enabled(e, actions[k])
    ensures var n := Next(e, actions[k]);
            id in n.threads && Tells(actions, k, k + 1, id, flow, count, n.threads[id])
  {
  }

  // ---- the end of a run ------------------------------------------------------------------------

  /** A run that leaves has reached its verdict; that is the status from then on, and the one announced. */
  lemma RunEndsByItsActions(actions: seq<Action>, states: seq<Engine>, k: nat, n: nat, id: nat, flow: string,
                            count: nat)
    requires Executed(actions, states, k, id, flow, count) && k < n < |actions| && actions[n] == Leave(id)
    ensures var o := LastOwn(actions, k, n, id);
            && o > 0 && Verdict(actions, k, o, id, flow, count).Some?
            && flow !in states[n + 1].runs
            && StatusOf(states[n + 1], flow) == Verdict(actions, k, o, id, flow, count)
  {
    RunTells(actions, states, k, n, id, flow, count);
    StepAt(actions, states, n);
    hide LastOwn, Verdict, Plays;
  }

  lemma AnnouncesItsVerdict(actions: seq<Action>, states: seq<Engine>, k: nat, n: nat, id: nat, flow: string,
                            count: nat)
    requires Executed(actions, states, k, id, flow, count) && k < n < |actions| && actions[n] == PublishTerminal(id)
    ensures id in states[n + 1].threads
    ensures var t := states[n + 1].threads[id].terminals;
            |t| == 1 && LeftAs(actions, k, LastOwn(actions, k, n, id), id, flow, count, t[0])
  {
    RunTells(actions, states, k, n, id, flow, count);
    PlaysOk(actions, states, n);
    StepAt(actions, states, n);
    ThreadOf(states[n], id);
    hide EngineOk, Executed, Plays, Tells, LeftAs, LastOwn, ThreadOk;
    Publishes(states[n], id);
    PublishingTold(actions, k, n, id, flow, count, states[n].threads[id]);
  }

  lemma StepAt(actions: seq<Action>, states: seq<Engine>, i: nat)
    requires Plays(actions, states) && i < |actions|
    ensures Step(states[i], actions[i], states[i + 1])
  {
    assert Follows(actions, states, i);
  }

  lemma Publishes(e: Engine, id: nat)
    requires Enabled(e, PublishTerminal(id)) && ThreadOk(e.threads[id])
    ensures id in e.threads && e.threads[id].place.Publishing?
    ensures var n := Next(e, PublishTerminal(id));
            id in n.threads && n.threads[id].terminals == [e.threads[id].place.final]
  {
  }

  lemma PublishingTold(actions: seq<Action>, k: nat, n: nat, id: nat, flow: string, count: nat, t: Thread)
    requires n <= |actions| && Tells(actions, k, n, id, flow, count, t) && t.place.Publishing?
    ensures LeftAs(actions, k, LastOwn(actions, k, n, id), id, flow, count, t.place.final)
  {
    hide LeftAs, LastOwn;
  }

  // ---- the status of a flow --------------------------------------------------------------------

  /** One past the execute of a run before n, or 0. */
  function ExecuteOf(actions: seq<Action>, n: nat, id: nat): (x: nat)
    requires n <= |actions|
    ensures x <= n && (x > 0 ==> actions[x - 1].Execute? && actions[x - 1].id == id)
  {
    if n == 0 then 0
    else if actions[n - 1].Execute? && actions[n - 1].id == id then n
    else ExecuteOf(actions, n - 1, id)
  }

  /** The status of a flow, told from the actions: running since the last execute, cancelling since a stop after it,
      and once the run has left, its verdict. */
  function Told(actions: seq<Action>, n: nat, flow: string): Option<Status>
    requires n <= |actions|
  {
    if n == 0 then None
    else
      match actions[n - 1]
      case Execute(f, _, _) => if f == flow then Some(Running) else Told(actions, n - 1, flow)
      case Stop(f) => if f == flow then Some(Cancelling) else Told(actions, n - 1, flow)
      case Leave(id) =>
        var x := ExecuteOf(actions, n - 1, id);
        if x > 0 && actions[x - 1].flow == flow && LastOwn(actions, x - 1, n - 1, id) > 0 then
          Verdict(actions, x - 1, LastOwn(actions, x - 1, n - 1, id), id, flow, actions[x - 1].count)
        else Told(actions, n - 1, flow)
      case _ => Told(actions, n - 1, flow)
  }

  lemma StatusStays(e: Engine, a: Action, flow: string)
    requires Enabled(e, a)
    requires a.Execute? || a.Stop? ==> a.flow != flow
    requires a.Leave? && a.id in e.threads ==> e.threads[a.id].flow != flow
    ensures StatusOf(Next(e, a), flow) == StatusOf(e, flow)
  {
  }

  lemma StatusChanges(e: Engine, a: Action)
    requires Enabled(e, a) && (a.Execute? || a.Stop?)
    ensures StatusOf(Next(e, a), a.flow) == Some(if a.Execute? then Running else Cancelling)
  {
  }

  lemma {:induction false} WasExecuted(actions: seq<Action>, states: seq<Engine>, n: nat, id: nat)
    requires Plays(actions, states) && n <= |actions| && id in states[n].threads
    ensures ExecuteOf(actions, n, id) > 0
  {
    if n > 0 {
      StepAt(actions, states, n - 1);
      StepAdds(states[n - 1], actions[n - 1], id);
      if id in states[n - 1].threads {
        WasExecuted(actions, states, n - 1, id);
      }
    }
  }

  lemma StepAdds(e: Engine, a: Action, id: nat)
    requires Enabled(e, a)
    ensures id in Next(e, a).threads <==> id in e.threads || (a.Execute? && a.id == id)
  {
  }

  /** What status answers is what the actions tell. */
  lemma {:induction false} StatusIsTold(actions: seq<Action>, states: seq<Engine>, n: nat, flow: string)
    requires Plays(actions, states) && n <= |actions|
    ensures StatusOf(states[n], flow) == Told(actions, n, flow)
  {
    hide Verdict, LastOwn, StatusOf, Next, Enabled;
    if n == 0 {
      NoStatus(flow);
    } else {
      var e, a := states[n - 1], actions[n - 1];
      StepAt(actions, states, n - 1);
      StatusIsTold(actions, states, n - 1, flow);
      if (a.Execute? || a.Stop?) && a.flow == flow {
        StatusChanges(e, a);
      } else if a.Leave? {
        LeaveIsTold(actions, states, n - 1, flow);
      } else {
        StatusStays(e, a, flow);
      }
    }
  }

  lemma LeaveIsTold(actions: seq<Action>, states: seq<Engine>, n: nat, flow: string)
    requires Plays(actions, states) && n < |actions| && actions[n].Leave?
    requires StatusOf(states[n], flow) == Told(actions, n, flow)
    ensures StatusOf(states[n + 1], flow) == Told(actions, n + 1, flow)
  {
    hide Verdict, LastOwn, StatusOf, Next;
    var e, id := states[n], actions[n].id;
    StepAt(actions, states, n);
    WasExecuted(actions, states, n, id);
    var x := ExecuteOf(actions, n, id);
    var f, count := actions[x - 1].flow, actions[x - 1].count;
    RunTells(actions, states, x - 1, n, id, f, count);
    RunEndsByItsActions(actions, states, x - 1, n, id, f, count);
    TellsFlow(actions, x - 1, n, id, f, count, e.threads[id]);
    hide Tells, Plays, Enabled, Executed;
    if f != flow {
      StatusStays(e, actions[n], flow);
    }
  }

  lemma NoStatus(flow: string)
    ensures StatusOf(Idle(), flow).None?
  {
  }

  // ---- stop ------------------------------------------------------------------------------------

  ghost predicate OneMore(actions: seq<Action>, j: nat, n: nat, id: nat, e: Engine)
    requires n <= |actions|
  {
    && id in e.threads && Starts(actions, j, n, id) <= 1
    && (e.threads[id].place.Starting? ==> Starts(actions, j, n, id) == 0)
  }

  /** Once stop has been called for the flow of a run, the run starts at most one more operation, and only if it had
      made its check before. */
  lemma {:induction false} OneStartAfterStop(actions: seq<Action>, states: seq<Engine>, k: nat, j: nat, n: nat, id: nat,
                                             flow: string, count: nat)
    requires Executed(actions, states, k, id, flow, count) && k < j < n <= |actions| && actions[j] == Stop(flow)
    ensures OneMore(actions, j, n, id, states[n])
  {
    if n == j + 1 {
      RunTells(actions, states, k, n, id, flow, count);
      NoneYet(actions, j, id, states[n]);
    } else {
      OneStartAfterStop(actions, states, k, j, n - 1, id, flow, count);
      AfterTheStop(actions, states, k, j, n, id, flow, count);
    }
    hide *;
  }

  lemma AfterTheStop(actions: seq<Action>, states: seq<Engine>, k: nat, j: nat, n: nat, id: nat, flow: string,
                     count: nat)
    requires Executed(actions, states, k, id, flow, count) && k < j && j + 1 < n <= |actions|
    requires actions[j] == Stop(flow) && OneMore(actions, j, n - 1, id, states[n - 1])
    ensures OneMore(actions, j, n, id, states[n])
  {
    RunTells(actions, states, k, n, id, flow, count);
    StepAt(actions, states, n - 1);
    StopStays(actions, k, j, n - 1, flow);
    StartingTold(actions, k, n, id, flow, count, states[n].threads[id]);
    OneMoreStep(actions, j, n, id, states[n - 1], states[n]);
    hide *;
  }

  lemma NoneYet(actions: seq<Action>, j: nat, id: nat, e: Engine)
    requires j < |actions| && id in e.threads
    ensures OneMore(actions, j, j + 1, id, e)
  {
  }

  lemma OneMoreStep(actions: seq<Action>, j: nat, n: nat, id: nat, e: Engine, m: Engine)
    requires j + 1 < n <= |actions| && Step(e, actions[n - 1], m) && OneMore(actions, j, n - 1, id, e)
    requires id in m.threads
    requires m.threads[id].place.Starting? ==> actions[n - 1] != Check(id)
    ensures OneMore(actions, j, n, id, m)
  {
    StartStep(e, actions[n - 1], id);
    hide Next, Enabled;
  }

  /** A start leaves the place where it is possible, and only a check of the run leads there. */
  lemma StartStep(e: Engine, a: Action, id: nat)
    requires Enabled(e, a) && id in e.threads
    ensures a == StartTask(id, true) ==> e.threads[id].place.Starting?
    ensures id in Next(e, a).threads
    ensures Next(e, a).threads[id].place.Starting? ==>
              a == Check(id) || (e.threads[id].place.Starting? && a != StartTask(id, true))
  {
  }

  lemma StartingTold(actions: seq<Action>, k: nat, n: nat, id: nat, flow: string, count: nat, t: Thread)
    requires k < n <= |actions| && Tells(actions, k, n, id, flow, count, t)
    ensures t.place.Starting? && actions[n - 1] == Check(id) ==> !StopsSince(actions, k, n - 1, flow)
  {
  }

  lemma {:induction false} StopStays(actions: seq<Action>, k: nat, j: nat, n: nat, flow: string)
    requires k < j < n <= |actions| && actions[j] == Stop(flow)
    ensures StopsSince(actions, k, n, flow)
  {
    if n > j + 1 {
      StopStays(actions, k, j, n - 1, flow);
    }
  }

  // ---- what may happen next --------------------------------------------------------------------

  predicate IsRunning(s: Option<Status>) {
    s == Some(Running) || s == Some(Cancelling)
  }

  /** A caller may stop a flow exactly while its status is running or cancelling, and execute it exactly when it is not,
      has operations, and the run is a new one. */
  lemma CallersMay(actions: seq<Action>, states: seq<Engine>, n: nat, flow: string, count: nat, id: nat)
    requires Plays(actions, states) && n <= |actions|
    ensures Enabled(states[n], Stop(flow)) <==> IsRunning(Told(actions, n, flow))
    ensures Enabled(states[n], Execute(flow, count, id))
      <==> count > 0 && ExecuteOf(actions, n, id) == 0 && !IsRunning(Told(actions, n, flow))
  {
    StatusIsTold(actions, states, n, flow);
    PlaysOk(actions, states, n);
    RunsAreRunning(states[n], flow);
    OnlyExecuted(actions, states, n, id);
    hide Plays, EngineOk, Told, StatusOf, ExecuteOf;
  }

  lemma RunsAreRunning(e: Engine, flow: string)
    requires EngineOk(e)
    ensures flow in e.runs <==> IsRunning(StatusOf(e, flow))
  {
    hide ThreadOk;
  }

  lemma {:induction false} OnlyExecuted(actions: seq<Action>, states: seq<Engine>, n: nat, id: nat)
    requires Plays(actions, states) && n <= |actions|
    ensures id in states[n].threads <==> ExecuteOf(actions, n, id) > 0
  {
    if n > 0 {
      StepAt(actions, states, n - 1);
      StepAdds(states[n - 1], actions[n - 1], id);
      OnlyExecuted(actions, states, n - 1, id);
    }
    hide Next, Enabled;
  }

  /** The actions that a run may take after its last one: a start may succeed or be refused, a wait may end in any way,
      or by a stop once there has been one, and nothing else is possible, whatever others have done. */
  predicate May(actions: seq<Action>, k: nat, n: nat, id: nat, flow: string, count: nat, a: Action)
    requires n <= |actions|
  {
    var o := LastOwn(actions, k, n, id);
    if o == 0 then a == Check(id)
    else
      match actions[o - 1]
      case Check(_) =>
        if Verdict(actions, k, o, id, flow, count).Some? then a == Leave(id) else a.StartTask? && a.id == id
      case StartTask(_, ok) =>
        if !ok then a == Leave(id)
        else (a.TaskEnds? && a.id == id) || (a == Poll(id) && StopsSince(actions, k, n, flow))
      case TaskEnds(_, end) => a == if end.TaskCompleted? then Check(id) else Classify(id)
      case Poll(_) => a == Classify(id)
      case Classify(_) => a == Leave(id)
      case Leave(_) => a == PublishTerminal(id)
      case _ => false
  }

  lemma RunsMay(actions: seq<Action>, states: seq<Engine>, k: nat, n: nat, id: nat, flow: string, count: nat, a: Action)
    requires Executed(actions, states, k, id, flow, count) && k < n <= |actions| && Own(a, id)
    ensures Enabled(states[n], a) <==> May(actions, k, n, id, flow, count, a)
  {
    RunTells(actions, states, k, n, id, flow, count);
    PlaysOk(actions, states, n);
    ThreadOf(states[n], id);
    hide EngineOk, Plays, Executed;
    PlaceMay(actions, k, n, id, flow, count, states[n], a);
  }

  lemma PlaceMay(actions: seq<Action>, k: nat, n: nat, id: nat, flow: string, count: nat, e: Engine, a: Action)
    requires n <= |actions| && id in e.threads && Tells(actions, k, n, id, flow, count, e.threads[id]) && Own(a, id)
    requires Live(e.threads[id]) ==> IsCancelled(e, flow) == e.threads[id].stopped
    ensures Enabled(e, a) <==> May(actions, k, n, id, flow, count, a)
  {
    hide LastOwn, StopsSince, Done;
  }
}
