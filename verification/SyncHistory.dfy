/** What the sync engine answers, told from the list of actions alone: how each task ends, which keys are busy, which
    outcomes are stored and which transfers were made. */
module SyncHistory {
  import opened SyncEngine

  /** The engine goes through these states, one for each action and the idle one before. */
  ghost predicate Plays(actions: seq<Action>, states: seq<Engine>) {
    && |states| == |actions| + 1 && states[0] == Idle(states[0].client)
    && forall i :: 0 <= i < |actions| ==> Follows(actions, states, i)
  }

  ghost predicate Follows(actions: seq<Action>, states: seq<Engine>, i: nat)
    requires i < |actions| && |states| == |actions| + 1
  {
    Step(states[i], actions[i], states[i + 1])
  }

  lemma StepAt(actions: seq<Action>, states: seq<Engine>, i: nat)
    requires Plays(actions, states) && i < |actions|
    ensures Step(states[i], actions[i], states[i + 1])
  {
    assert Follows(actions, states, i);
  }

  // ---- reading the list ------------------------------------------------------------------------

  /** One past the last time the action was taken among the first n, or 0. */
  function Last(actions: seq<Action>, n: nat, a: Action): (p: nat)
    requires n <= |actions|
    ensures p <= n && (p > 0 ==> actions[p - 1] == a)
  {
    if n == 0 then 0 else if actions[n - 1] == a then n else Last(actions, n - 1, a)
  }

  predicate Did(actions: seq<Action>, n: nat, a: Action)
    requires n <= |actions|
  {
    Last(actions, n, a) > 0
  }

  /** What is decided after the transfer: completed if it did not throw; otherwise cancelled if the token had been
      cancelled when it was looked at, or the status set to cancelled before the decision; otherwise failed. */
  function Decision(actions: seq<Action>, n: nat, id: nat): Status
    requires n <= |actions|
  {
    if !Did(actions, n, TransferReturns(id, true)) then Completed
    else if Did(actions, Last(actions, n, LookAtToken(id)), CancelToken(id)) then Cancelled
    else if Did(actions, Last(actions, n, Decide(id)), CancelStatus(id)) then Cancelled
    else Failed
  }

  /** The outcome: a cancellation that comes between the setting of the decided status and its last reading wins. */
  function Outcome(actions: seq<Action>, n: nat, id: nat): Status
    requires n <= |actions|
  {
    var marked := Last(actions, Last(actions, n, ReadStatus(id)), CancelStatus(id));
    if marked > Last(actions, n, SetStatus(id)) then Cancelled else Decision(actions, n, id)
  }

  // ---- one task --------------------------------------------------------------------------------

  /** What the actions say of a task: whether its token was cancelled, when its status was, whether its transfer threw,
      whether its token was cancelled at the look after that, when its status was set, and what follows. */
  datatype News = News(token: bool, marked: nat, failed: bool, asked: bool, settled: nat, decision: Status,
                       outcome: Status)

  function NewsOf(actions: seq<Action>, n: nat, id: nat): News
    requires n <= |actions|
  {
    News(Did(actions, n, CancelToken(id)), Last(actions, n, CancelStatus(id)),
         Did(actions, n, TransferReturns(id, true)), Did(actions, Last(actions, n, LookAtToken(id)), CancelToken(id)),
         Last(actions, n, SetStatus(id)), Decision(actions, n, id), Outcome(actions, n, id))
  }

  /** The task is as the news has it. */
  ghost predicate Fits(news: News, t: Task) {
    && t.token == news.token
    && match t.stage
       case Returned(failed) => failed == news.failed && Unset(news, t)
       case Looked(asked) => news.failed && asked == news.asked && Unset(news, t)
       case Deciding(_, _, decided) => decided == news.decision && Unset(news, t)
       case Closing(_, _) =>
         news.settled > 0 && t.status == if news.marked > news.settled then Cancelled else news.decision
       case Leaving(_, _, outcome) => outcome == news.outcome
       case Over(_, _, outcome) => outcome == news.outcome
       case _ => !news.failed && Unset(news, t)
  }

  /** Until it is set by the task, the status is that of the task's creation or of a cancellation. */
  ghost predicate Unset(news: News, t: Task) {
    news.settled == 0 && t.status == if news.marked > 0 then Cancelled else Running
  }

  /** Nobody has done anything with the id. */
  ghost predicate Unknown(news: News) {
    !news.token && news.marked == 0 && !news.failed && news.settled == 0
  }

  /** An action that concerns another task, or none. */
  predicate Others(a: Action, id: nat) {
    a.SetClient? || a.id != id
  }

  lemma OthersStep(e: Engine, a: Action, id: nat)
    requires Enabled(e, a) && Others(a, id)
    ensures id in Next(e, a).tasks <==> id in e.tasks
    ensures id in e.tasks ==> Next(e, a).tasks[id] == e.tasks[id]
  {
  }

  /** One more action, and the last time of each kind of action of a task. */
  lemma LastStep(actions: seq<Action>, n: nat, a: Action)
    requires n < |actions|
    ensures Last(actions, n + 1, a) == if actions[n] == a then n + 1 else Last(actions, n, a)
  {
  }

  lemma AllSteps(actions: seq<Action>, n: nat, id: nat)
    requires n < |actions|
    ensures Last(actions, n + 1, CancelToken(id))
      == if actions[n] == CancelToken(id) then n + 1 else Last(actions, n, CancelToken(id))
    ensures Last(actions, n + 1, CancelStatus(id))
      == if actions[n] == CancelStatus(id) then n + 1 else Last(actions, n, CancelStatus(id))
    ensures Last(actions, n + 1, TransferReturns(id, true))
      == if actions[n] == TransferReturns(id, true) then n + 1 else Last(actions, n, TransferReturns(id, true))
    ensures Last(actions, n + 1, LookAtToken(id))
      == if actions[n] == LookAtToken(id) then n + 1 else Last(actions, n, LookAtToken(id))
    ensures Last(actions, n + 1, Decide(id))
      == if actions[n] == Decide(id) then n + 1 else Last(actions, n, Decide(id))
    ensures Last(actions, n + 1, SetStatus(id))
      == if actions[n] == SetStatus(id) then n + 1 else Last(actions, n, SetStatus(id))
    ensures Last(actions, n + 1, ReadStatus(id))
      == if actions[n] == ReadStatus(id) then n + 1 else Last(actions, n, ReadStatus(id))
  {
    LastStep(actions, n, CancelToken(id));
    LastStep(actions, n, CancelStatus(id));
    LastStep(actions, n, TransferReturns(id, true));
    LastStep(actions, n, LookAtToken(id));
    LastStep(actions, n, Decide(id));
    LastStep(actions, n, SetStatus(id));
    LastStep(actions, n, ReadStatus(id));
    hide Last;
  }

  /** The news of one more action. */
  lemma NewsStep(actions: seq<Action>, n: nat, id: nat)
    requires n < |actions|
    ensures var a, before, after := actions[n], NewsOf(actions, n, id), NewsOf(actions, n + 1, id);
            && after.token == (before.token || a == CancelToken(id))
            && after.marked == (if a == CancelStatus(id) then n + 1 else before.marked) && before.marked <= n
            && after.failed == (before.failed || a == TransferReturns(id, true))
            && after.asked == (if a == LookAtToken(id) then before.token else before.asked)
            && after.settled == (if a == SetStatus(id) then n + 1 else before.settled)
  {
    AllSteps(actions, n, id);
    hide Last, Decision, Outcome;
    assert actions[n] == LookAtToken(id) ==> Last(actions, n + 1, CancelToken(id)) == Last(actions, n, CancelToken(id));
  }

  lemma DecisionStep(actions: seq<Action>, n: nat, id: nat)
    requires n < |actions|
    ensures var a, before, after := actions[n], NewsOf(actions, n, id), NewsOf(actions, n + 1, id);
            && (a == Decide(id) ==>
                  after.decision == if !before.failed then Completed
                                    else if before.asked || before.marked > 0 then Cancelled else Failed)
            && (a != Decide(id) && a != LookAtToken(id) && a != TransferReturns(id, true) ==>
                  after.decision == before.decision)
  {
    AllSteps(actions, n, id);
    hide Last, Outcome;
  }

  lemma OutcomeStep(actions: seq<Action>, n: nat, id: nat)
    requires n < |actions|
    ensures var a, before, after := actions[n], NewsOf(actions, n, id), NewsOf(actions, n + 1, id);
            && (a == ReadStatus(id) ==>
                  after.outcome == if before.marked > before.settled then Cancelled else before.decision)
            && (a != ReadStatus(id) && a != SetStatus(id) && before.decision == after.decision ==>
                  after.outcome == before.outcome)
  {
    AllSteps(actions, n, id);
    DecisionStep(actions, n, id);
    hide Last, Decision;
  }

  lemma OthersTell(actions: seq<Action>, n: nat, id: nat)
    requires n < |actions| && Others(actions[n], id)
    ensures NewsOf(actions, n + 1, id) == NewsOf(actions, n, id)
  {
    NewsStep(actions, n, id);
    DecisionStep(actions, n, id);
    OutcomeStep(actions, n, id);
    hide Last, Decision, Outcome, Did, NewsOf;
  }

  lemma ReserveTells(actions: seq<Action>, n: nat, id: nat, e: Engine)
    requires n < |actions| && Enabled(e, actions[n]) && actions[n].Reserve? && actions[n].id == id
    requires Unknown(NewsOf(actions, n, id))
    ensures id in Next(e, actions[n]).tasks
    ensures Fits(NewsOf(actions, n + 1, id), Next(e, actions[n]).tasks[id])
  {
    NewsStep(actions, n, id);
    hide NewsOf;
  }

  /** The news after an action of the task, from the news before. */
  ghost predicate Brings(before: News, after: News, a: Action, id: nat, n: nat) {
    && after.token == (before.token || a == CancelToken(id))
    && after.marked == (if a == CancelStatus(id) then n + 1 else before.marked) && before.marked <= n
    && after.failed == (before.failed || a == TransferReturns(id, true))
    && after.asked == (if a == LookAtToken(id) then before.token else before.asked)
    && after.settled == (if a == SetStatus(id) then n + 1 else before.settled) && before.settled <= n
    && !before.decision.Running?
    && (a == Decide(id) ==> after.decision == if !before.failed then Completed
                                              else if before.asked || before.marked > 0 then Cancelled else Failed)
    && (a != Decide(id) && a != LookAtToken(id) && a != TransferReturns(id, true) ==> after.decision == before.decision)
    && (a == ReadStatus(id) ==>
          after.outcome == if before.marked > before.settled then Cancelled else before.decision)
    && (a != ReadStatus(id) && a != SetStatus(id) && before.decision == after.decision ==>
          after.outcome == before.outcome)
  }

  lemma NewsBrings(actions: seq<Action>, n: nat, id: nat)
    requires n < |actions|
    ensures Brings(NewsOf(actions, n, id), NewsOf(actions, n + 1, id), actions[n], id, n)
  {
    NewsStep(actions, n, id);
    DecisionStep(actions, n, id);
    OutcomeStep(actions, n, id);
    assert !Decision(actions, n, id).Running?;
    hide Last, Outcome;
  }

  lemma CancelFits(before: News, after: News, a: Action, id: nat, n: nat, e: Engine)
    requires Brings(before, after, a, id, n) && Enabled(e, a) && (a == CancelToken(id) || a == CancelStatus(id))
    requires id in e.tasks && Fits(before, e.tasks[id])
    ensures id in Next(e, a).tasks && Fits(after, Next(e, a).tasks[id])
  {
  }

  lemma TransferFits(before: News, after: News, a: Action, id: nat, n: nat, e: Engine)
    requires Brings(before, after, a, id, n) && Enabled(e, a) && !Others(a, id)
    requires a.GiveUp? || a.Register? || a.CallClient? || a.TransferReturns? || a.LookAtToken?
    requires id in e.tasks && Fits(before, e.tasks[id])
    ensures id in Next(e, a).tasks && Fits(after, Next(e, a).tasks[id])
  {
  }

  lemma ClosingFits(before: News, after: News, a: Action, id: nat, n: nat, e: Engine)
    requires Brings(before, after, a, id, n) && Enabled(e, a) && !Others(a, id)
    requires a.Decide? || a.SetStatus? || a.ReadStatus? || a.CleanUp? || a.TakeOutcome?
    requires id in e.tasks && Fits(before, e.tasks[id])
    ensures id in Next(e, a).tasks && Fits(after, Next(e, a).tasks[id])
  {
  }

  lemma OwnTells(actions: seq<Action>, n: nat, id: nat, e: Engine)
    requires n < |actions| && Enabled(e, actions[n]) && !Others(actions[n], id) && !actions[n].Reserve?
    requires id in e.tasks && Fits(NewsOf(actions, n, id), e.tasks[id])
    ensures id in Next(e, actions[n]).tasks
    ensures Fits(NewsOf(actions, n + 1, id), Next(e, actions[n]).tasks[id])
  {
    NewsBrings(actions, n, id);
    hide NewsOf, Brings, Fits, Next, Enabled;
    var before, after, a := NewsOf(actions, n, id), NewsOf(actions, n + 1, id), actions[n];
    if a == CancelToken(id) || a == CancelStatus(id) {
      CancelFits(before, after, a, id, n, e);
    } else if a.Decide? || a.SetStatus? || a.ReadStatus? || a.CleanUp? || a.TakeOutcome? {
      ClosingFits(before, after, a, id, n, e);
    } else {
      TransferFits(before, after, a, id, n, e);
    }
  }

  /** Every task is as the actions tell. */
  lemma {:induction false} TaskIsTold(actions: seq<Action>, states: seq<Engine>, n: nat, id: nat)
    requires Plays(actions, states) && n <= |actions|
    ensures if id in states[n].tasks then Fits(NewsOf(actions, n, id), states[n].tasks[id])
            else Unknown(NewsOf(actions, n, id))
  {
    if n > 0 {
      TaskIsTold(actions, states, n - 1, id);
      StepAt(actions, states, n - 1);
      var e, a := states[n - 1], actions[n - 1];
      hide NewsOf, Next, Fits, Unknown;
      if Others(a, id) {
        OthersStep(e, a, id);
        OthersTell(actions, n - 1, id);
      } else if a.Reserve? {
        ReserveTells(actions, n - 1, id, e);
      } else {
        OwnTells(actions, n - 1, id, e);
      }
    }
  }

  /** A task that is over has the outcome that its transfer and the cancellations amount to. */
  lemma OutcomeIsTold(actions: seq<Action>, states: seq<Engine>, n: nat, id: nat)
    requires Plays(actions, states) && n <= |actions| && id in states[n].tasks && states[n].tasks[id].stage.Over?
    ensures states[n].tasks[id].stage.outcome == Outcome(actions, n, id)
  {
    TaskIsTold(actions, states, n, id);
    hide Outcome, Decision, Last;
  }

  /** A transfer that throws after its token was cancelled ends as cancelled, and so does one whose status is cancelled
      between the decision and the last reading; a transfer that does not throw is cancelled by the second only. */
  lemma CancelledExactly(actions: seq<Action>, states: seq<Engine>, n: nat, id: nat)
    requires Plays(actions, states) && n <= |actions| && id in states[n].tasks && states[n].tasks[id].stage.Over?
    ensures states[n].tasks[id].stage.outcome.Cancelled? <==>
              || Last(actions, Last(actions, n, ReadStatus(id)), CancelStatus(id)) > Last(actions, n, SetStatus(id))
              || (Did(actions, n, TransferReturns(id, true))
                  && (Did(actions, Last(actions, n, LookAtToken(id)), CancelToken(id))
                      || Did(actions, Last(actions, n, Decide(id)), CancelStatus(id))))
  {
    OutcomeIsTold(actions, states, n, id);
    hide Last;
  }

  // ---- keys, outcomes and the client -----------------------------------------------------------

  /** The key that the id was reserved under. */
  function KeyOf(actions: seq<Action>, n: nat, id: nat): string
    requires n <= |actions|
  {
    if n == 0 then ""
    else if actions[n - 1].Reserve? && actions[n - 1].id == id then actions[n - 1].key
    else KeyOf(actions, n - 1, id)
  }

  /** A key is busy from a reservation until that start attempt gives up or its task cleans up. */
  predicate Busy(actions: seq<Action>, n: nat, key: string)
    requires n <= |actions|
  {
    n > 0 &&
    match actions[n - 1]
    case Reserve(_, k) => k == key || Busy(actions, n - 1, key)
    case GiveUp(id) => KeyOf(actions, n - 1, id) != key && Busy(actions, n - 1, key)
    case CleanUp(id) => KeyOf(actions, n - 1, id) != key && Busy(actions, n - 1, key)
    case _ => Busy(actions, n - 1, key)
  }

  /** An outcome waits from the clean-up of its task until one wait takes it. */
  predicate Waits(actions: seq<Action>, n: nat, id: nat)
    requires n <= |actions|
  {
    Last(actions, n, CleanUp(id)) > Last(actions, n, TakeOutcome(id))
  }

  /** Whether a client is attached: as at first, until it is set. */
  function Attached(actions: seq<Action>, n: nat, first: bool): bool
    requires n <= |actions|
  {
    if n == 0 then first else if actions[n - 1].SetClient? then actions[n - 1].on else Attached(actions, n - 1, first)
  }

  lemma {:induction false} KeyIsTold(actions: seq<Action>, states: seq<Engine>, n: nat, id: nat)
    requires Plays(actions, states) && n <= |actions| && id in states[n].tasks
    ensures states[n].tasks[id].key == KeyOf(actions, n, id)
  {
    if n > 0 {
      StepAt(actions, states, n - 1);
      KeyStep(states[n - 1], actions[n - 1], id);
      hide Next, Enabled;
      if id in states[n - 1].tasks {
        KeyIsTold(actions, states, n - 1, id);
      }
    }
  }

  lemma KeyStep(e: Engine, a: Action, id: nat)
    requires Enabled(e, a)
    ensures id in Next(e, a).tasks <==> id in e.tasks || (a.Reserve? && a.id == id)
    ensures id in e.tasks ==> !(a.Reserve? && a.id == id) && Next(e, a).tasks[id].key == e.tasks[id].key
    ensures a.Reserve? && a.id == id ==> Next(e, a).tasks[id].key == a.key
  {
  }

  lemma BusyStep(e: Engine, a: Action, key: string)
    requires Enabled(e, a)
    ensures key in Next(e, a).busyKeys <==>
              || (key in e.busyKeys && !((a.GiveUp? || a.CleanUp?) && e.tasks[a.id].key == key))
              || (a.Reserve? && a.key == key)
  {
  }

  lemma {:induction false} BusyIsTold(actions: seq<Action>, states: seq<Engine>, n: nat, key: string)
    requires Plays(actions, states) && n <= |actions|
    ensures key in states[n].busyKeys <==> Busy(actions, n, key)
  {
    if n > 0 {
      StepAt(actions, states, n - 1);
      BusyIsTold(actions, states, n - 1, key);
      BusyStep(states[n - 1], actions[n - 1], key);
      hide Next, KeyOf;
      if actions[n - 1].GiveUp? || actions[n - 1].CleanUp? {
        KeyIsTold(actions, states, n - 1, actions[n - 1].id);
      }
    }
  }

  lemma {:induction false} OutcomesAreTold(actions: seq<Action>, states: seq<Engine>, n: nat, id: nat)
    requires Plays(actions, states) && n <= |actions|
    ensures id in states[n].outcomes <==> Waits(actions, n, id)
  {
    if n > 0 {
      StepAt(actions, states, n - 1);
      OutcomesAreTold(actions, states, n - 1, id);
      LastStep(actions, n - 1, CleanUp(id));
      LastStep(actions, n - 1, TakeOutcome(id));
      OutcomesStep(states[n - 1], actions[n - 1], id);
      hide Next, Enabled, Last;
    }
  }

  lemma OutcomesStep(e: Engine, a: Action, id: nat)
    requires Enabled(e, a)
    ensures id in Next(e, a).outcomes <==> a == CleanUp(id) || (id in e.outcomes && a != TakeOutcome(id))
  {
  }

  /** A transfer is made exactly if a client is attached, by the actions, when it is called. */
  lemma {:induction false} TransferIsTold(actions: seq<Action>, states: seq<Engine>, n: nat, id: nat)
    requires Plays(actions, states) && n <= |actions|
    ensures states[n].client == Attached(actions, n, states[0].client)
    ensures id in states[n].tasks ==>
              var c := Last(actions, n, CallClient(id));
              states[n].tasks[id].ran == (c > 0 && Attached(actions, c - 1, states[0].client))
    ensures id !in states[n].tasks ==> Last(actions, n, CallClient(id)) == 0
  {
    if n > 0 {
      StepAt(actions, states, n - 1);
      TransferIsTold(actions, states, n - 1, id);
      LastStep(actions, n - 1, CallClient(id));
      RanStep(states[n - 1], actions[n - 1], id);
      hide Next, Enabled, Last;
    }
  }

  lemma RanStep(e: Engine, a: Action, id: nat)
    requires Enabled(e, a)
    ensures Next(e, a).client == if a.SetClient? then a.on else e.client
    ensures id in Next(e, a).tasks <==> id in e.tasks || (a.Reserve? && a.id == id)
    ensures a == CallClient(id) ==> id in e.tasks
    ensures id in Next(e, a).tasks ==>
              Next(e, a).tasks[id].ran == (if a == CallClient(id) then e.client else id in e.tasks && e.tasks[id].ran)
  {
  }

  // ---- what may happen next --------------------------------------------------------------------

  lemma TokenTold(news: News, t: Task)
    requires Fits(news, t)
    ensures t.token == news.token
  {
  }

  /** A key can be reserved exactly while it is not busy, an outcome taken exactly while it waits, and a task cancelled
      as long as there is one; the client may come and go at any time. */
  lemma CallersMay(actions: seq<Action>, states: seq<Engine>, n: nat, id: nat, key: string, on: bool)
    requires Plays(actions, states) && n <= |actions|
    ensures id !in states[n].tasks ==> (Enabled(states[n], Reserve(id, key)) <==> !Busy(actions, n, key))
    ensures id in states[n].tasks ==> (Enabled(states[n], TakeOutcome(id)) <==> Waits(actions, n, id))
    ensures id in states[n].tasks && HasTask(states[n].tasks[id]) ==> Enabled(states[n], CancelToken(id))
    ensures id in states[n].tasks && HasTask(states[n].tasks[id]) && Did(actions, n, CancelToken(id)) ==>
              Enabled(states[n], CancelStatus(id))
    ensures Enabled(states[n], SetClient(on))
  {
    BusyIsTold(actions, states, n, key);
    OutcomesAreTold(actions, states, n, id);
    TaskIsTold(actions, states, n, id);
    if id in states[n].tasks {
      TokenTold(NewsOf(actions, n, id), states[n].tasks[id]);
    }
    assert NewsOf(actions, n, id).token == Did(actions, n, CancelToken(id));
    hide Plays, Busy, Waits, Fits, NewsOf, Unknown, Did;
  }

  /** A start attempt may go on or be given up, and a task has one next step until it is over; only a transfer that was
      made can throw. */
  lemma TasksMay(e: Engine, id: nat, failed: bool)
    requires id in e.tasks
    ensures var t := e.tasks[id];
            && (Enabled(e, GiveUp(id)) <==> t.stage.Reserved?)
            && (Enabled(e, Register(id)) <==> t.stage.Reserved?)
            && (Enabled(e, CallClient(id)) <==> t.stage.Registered?)
            && (Enabled(e, TransferReturns(id, failed)) <==> t.stage.Transferring? && (failed ==> t.ran))
            && (Enabled(e, LookAtToken(id)) <==> t.stage == Returned(true))
            && (Enabled(e, Decide(id)) <==> t.stage == Returned(false) || t.stage.Looked?)
            && (Enabled(e, SetStatus(id)) <==> t.stage.Deciding?)
            && (Enabled(e, ReadStatus(id)) <==> t.stage.Closing?)
            && (Enabled(e, CleanUp(id)) <==> t.stage.Leaving?)
  {
  }
}
