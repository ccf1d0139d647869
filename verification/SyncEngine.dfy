/** SyncEngine without its stop(): reserving a key, running a task, cancelling it and waiting for it. The atomic
    steps are the critical sections under activeLock and under a task's own lock. */
module SyncEngine {
  import opened Wrappers

  datatype Status = Running | Completed | Failed | Cancelled

  /** Where a start attempt is: key reserved, given up, task in `active`, transfer called, transfer returned; after
      a failure, token looked at; status decided, status set, status read for the outcome, or over. `asked` is
      whether the token was found cancelled by the look after the failure. */
  datatype Stage =
    | Reserved
    | GivenUp
    | Registered
    | Transferring
    | Returned(failed: bool)
    | Looked(asked: bool)
    | Deciding(failed: bool, asked: bool, decided: Status)
    | Closing(failed: bool, asked: bool)
    | Leaving(failed: bool, asked: bool, outcome: Status)
    | Over(failed: bool, asked: bool, outcome: Status)

  /** A start attempt and the task it leads to. `ran` is whether a client was attached when the transfer was called:
      without one the call returns at once and throws nothing. `recorded` counts the outcomes stored for it and
      `taken` the waits that consumed one. */
  datatype Task = Task(
    key: string, stage: Stage, status: Status, token: bool, ran: bool, recorded: nat, taken: seq<Status>)

  /** `client` is whether an rclone client is attached. */
  datatype Engine = Engine(
    client: bool, active: set<nat>, outcomes: map<nat, Status>, busyKeys: set<string>, tasks: map<nat, Task>)

  function Idle(client: bool): Engine {
    Engine(client, {}, map[], {}, map[])
  }

  datatype Action =
    | SetClient(on: bool)
    | Reserve(id: nat, key: string)
    | GiveUp(id: nat)
    | Register(id: nat)
    | CallClient(id: nat)
    | TransferReturns(id: nat, failed: bool)
    | LookAtToken(id: nat)
    | Decide(id: nat)
    | SetStatus(id: nat)
    | ReadStatus(id: nat)
    | CleanUp(id: nat)
    | CancelToken(id: nat)
    | CancelStatus(id: nat)
    | TakeOutcome(id: nat)

  predicate Holds(t: Task) {
    !t.stage.GivenUp? && !t.stage.Over?
  }

  predicate HasTask(t: Task) {
    !t.stage.Reserved? && !t.stage.GivenUp?
  }

  /** The transfer has been called. */
  predicate Called(t: Task) {
    HasTask(t) && !t.stage.Registered?
  }

  ghost predicate Enabled(e: Engine, a: Action) {
    match a
    // attach and detach
    case SetClient(_) => true
    case Reserve(id, key) => id !in e.tasks && key !in e.busyKeys
    case GiveUp(id) => id in e.tasks && e.tasks[id].stage.Reserved?
    case Register(id) => id in e.tasks && e.tasks[id].stage.Reserved?
    case CallClient(id) => id in e.tasks && e.tasks[id].stage.Registered?
    case TransferReturns(id, failed) =>
      id in e.tasks && e.tasks[id].stage.Transferring? && (failed ==> e.tasks[id].ran)
    case LookAtToken(id) => id in e.tasks && e.tasks[id].stage == Returned(true)
    case Decide(id) => id in e.tasks && (e.tasks[id].stage == Returned(false) || e.tasks[id].stage.Looked?)
    case SetStatus(id) => id in e.tasks && e.tasks[id].stage.Deciding?
    case ReadStatus(id) => id in e.tasks && e.tasks[id].stage.Closing?
    case CleanUp(id) => id in e.tasks && e.tasks[id].stage.Leaving?
    // whoever holds the sync task may cancel it at any time, even after it has left `active`
    case CancelToken(id) => id in e.tasks && HasTask(e.tasks[id])
    case CancelStatus(id) => id in e.tasks && HasTask(e.tasks[id]) && e.tasks[id].token
    case TakeOutcome(id) => id in e.outcomes && id in e.tasks
  }

  /** The status decided after the transfer; a cancellation excuses only a failure. The token has been looked at
      before, the task's own status is looked at now. */
  function Decided(t: Task): Stage
    requires t.stage == Returned(false) || t.stage.Looked?
  {
    if t.stage.Returned? then Deciding(false, false, Completed)
    else Deciding(true, t.stage.asked, if t.stage.asked || t.status.Cancelled? then Cancelled else Failed)
  }

  function ReadOutcome(s: Status): Status {
    if s.Running? then Failed else s
  }

  function Next(e: Engine, a: Action): Engine
    requires Enabled(e, a)
  {
    match a
    case SetClient(on) => e.(client := on)
    case Reserve(id, key) =>
      e.(busyKeys := e.busyKeys + {key}, tasks := e.tasks[id := Task(key, Reserved, Running, false, false, 0, [])])
    case GiveUp(id) => Put(e.(busyKeys := e.busyKeys - {e.tasks[id].key}), id, e.tasks[id].(stage := GivenUp))
    case Register(id) => Put(e.(active := e.active + {id}), id, e.tasks[id].(stage := Registered))
    case CallClient(id) => Put(e, id, e.tasks[id].(stage := Transferring, ran := e.client))
    case TransferReturns(id, failed) => Put(e, id, e.tasks[id].(stage := Returned(failed)))
    case LookAtToken(id) => Put(e, id, e.tasks[id].(stage := Looked(e.tasks[id].token)))
    case Decide(id) => Put(e, id, e.tasks[id].(stage := Decided(e.tasks[id])))
    case SetStatus(id) =>
      var t := e.tasks[id];
      Put(e, id, t.(stage := Closing(t.stage.failed, t.stage.asked), status := t.stage.decided))
    case ReadStatus(id) =>
      var t := e.tasks[id];
      Put(e, id, t.(stage := Leaving(t.stage.failed, t.stage.asked, ReadOutcome(t.status))))
    case CleanUp(id) =>
      var t := e.tasks[id];
      var over := t.(stage := Over(t.stage.failed, t.stage.asked, t.stage.outcome), recorded := t.recorded + 1);
      e.(active := e.active - {id}, outcomes := e.outcomes[id := t.stage.outcome], busyKeys := e.busyKeys - {t.key},
         tasks := e.tasks[id := over])
    case CancelToken(id) => Put(e, id, e.tasks[id].(token := true))
    case CancelStatus(id) => Put(e, id, e.tasks[id].(status := Cancelled))
    case TakeOutcome(id) =>
      var t := e.tasks[id];
      Put(e.(outcomes := e.outcomes - {id}), id, t.(taken := t.taken + [e.outcomes[id]]))
  }

  function Put(e: Engine, id: nat, t: Task): Engine {
    e.(tasks := e.tasks[id := t])
  }

  // ---- invariant -------------------------------------------------------------------------------

  /** One task's history. */
  ghost predicate TaskOk(t: Task) {
    && t.recorded == (if t.stage.Over? then 1 else 0)
    && |t.taken| <= t.recorded
    && (t.stage.Reserved? || t.stage.GivenUp? ==> t.status.Running? && !t.token)
    && (t.ran ==> Called(t))
    && match t.stage
       case Closing(failed, asked) =>
         OutcomeFits(t, failed, asked, t.status)
       case Leaving(failed, asked, outcome) => OutcomeFits(t, failed, asked, outcome)
       case Over(failed, asked, outcome) =>
         OutcomeFits(t, failed, asked, outcome) && forall i :: 0 <= i < |t.taken| ==> t.taken[i] == outcome
       case Deciding(failed, asked, decided) => OutcomeFits(t, failed, asked, decided) && Undecided(t)
       case Looked(asked) => t.ran && (asked ==> t.token) && Undecided(t)
       case Returned(failed) => (failed ==> t.ran) && Undecided(t)
       case _ => Undecided(t)
  }

  /** Until it is set, the status is "running", or "cancelled" by whoever cancelled the token. */
  ghost predicate Undecided(t: Task) {
    t.status.Running? || (t.status.Cancelled? && t.token)
  }

  /** "completed" means the transfer did not fail, "failed" that it was made and failed, with nobody having asked to
      cancel when the token was looked at, "cancelled" that someone asked. */
  ghost predicate OutcomeFits(t: Task, failed: bool, asked: bool, s: Status) {
    && (failed ==> t.ran) && (asked ==> t.token)
    && match s
       case Completed => !failed
       case Failed => failed && !asked
       case Cancelled => t.token
       case Running => false
  }

  /** Keys, the active set and the stored outcomes are exactly those of the tasks' stages. */
  ghost predicate EngineOk(e: Engine) {
    TasksOk(e) && KeysOk(e) && Exclusive(e) && ActiveOk(e) && OutcomesOk(e)
  }

  ghost predicate TasksOk(e: Engine) {
    forall id :: id in e.tasks ==> TaskOk(e.tasks[id])
  }

  ghost predicate KeysOk(e: Engine) {
    && (forall id :: id in e.tasks && Holds(e.tasks[id]) ==> e.tasks[id].key in e.busyKeys)
    && (forall k :: k in e.busyKeys ==> HasHolder(e, k))
  }

  ghost predicate HasHolder(e: Engine, k: string) {
    exists id :: HolderIs(e, k, id)
  }

  ghost predicate HolderIs(e: Engine, k: string, id: nat) {
    id in e.tasks && Holds(e.tasks[id]) && e.tasks[id].key == k
  }

  ghost predicate Exclusive(e: Engine) {
    forall i, j ::
      && i in e.tasks && j in e.tasks && Holds(e.tasks[i]) && Holds(e.tasks[j])
      && e.tasks[i].key == e.tasks[j].key
      ==> i == j
  }

  ghost predicate ActiveOk(e: Engine) {
    forall id :: id in e.active <==> id in e.tasks && HasTask(e.tasks[id]) && !e.tasks[id].stage.Over?
  }

  ghost predicate OutcomesOk(e: Engine) {
    forall id :: id in e.outcomes <==> id in e.tasks && e.tasks[id].stage.Over? && e.tasks[id].taken == []
  }

  ghost predicate StoredOk(e: Engine) {
    forall id :: id in e.outcomes && id in e.tasks && e.tasks[id].stage.Over? ==>
      e.outcomes[id] == e.tasks[id].stage.outcome
  }

  // ---- one task --------------------------------------------------------------------------------

  lemma SetStatusOk(t: Task)
    requires TaskOk(t) && t.stage.Deciding?
    ensures TaskOk(t.(stage := Closing(t.stage.failed, t.stage.asked), status := t.stage.decided))
  {
  }

  lemma ReadStatusOk(t: Task)
    requires TaskOk(t) && t.stage.Closing?
    ensures TaskOk(t.(stage := Leaving(t.stage.failed, t.stage.asked, ReadOutcome(t.status))))
  {
  }

  lemma CleanUpOk(t: Task)
    requires TaskOk(t) && t.stage.Leaving?
    ensures TaskOk(t.(stage := Over(t.stage.failed, t.stage.asked, t.stage.outcome), recorded := t.recorded + 1))
  {
  }

  lemma CancelOk(t: Task)
    requires TaskOk(t) && HasTask(t)
    ensures TaskOk(t.(token := true))
    ensures t.token ==> TaskOk(t.(status := Cancelled))
  {
  }

  lemma TakeOk(t: Task)
    requires TaskOk(t) && t.stage.Over? && t.taken == []
    ensures TaskOk(t.(taken := t.taken + [t.stage.outcome]))
  {
  }

  // ---- the engine ------------------------------------------------------------------------------

  /** A step that concerns one task only. */
  ghost predicate Concerns(e: Engine, n: Engine, id: nat) {
    && id in e.tasks && n.tasks.Keys == e.tasks.Keys
    && (forall j :: j in e.tasks && j != id ==> n.tasks[j] == e.tasks[j])
    && (forall j :: j != id ==> (j in n.active <==> j in e.active) && (j in n.outcomes <==> j in e.outcomes))
    && (forall j :: j != id && j in e.outcomes ==> j in n.outcomes && n.outcomes[j] == e.outcomes[j])
  }

  /** The shared maps agree with one task's stage. */
  ghost predicate Agrees(n: Engine, id: nat)
    requires id in n.tasks
  {
    var t := n.tasks[id];
    && (id in n.active <==> HasTask(t) && !t.stage.Over?)
    && (id in n.outcomes <==> t.stage.Over? && t.taken == [])
    && (id in n.outcomes && t.stage.Over? ==> n.outcomes[id] == t.stage.outcome)
  }

  lemma RegistersOk(e: Engine, n: Engine, id: nat)
    requires Concerns(e, n, id) && ActiveOk(e) && OutcomesOk(e) && StoredOk(e) && Agrees(n, id)
    ensures ActiveOk(n) && OutcomesOk(n) && StoredOk(n)
  {
    hide HasTask;
  }

  lemma AllTasksOk(e: Engine, n: Engine, id: nat)
    requires Concerns(e, n, id) && TasksOk(e) && TaskOk(n.tasks[id])
    ensures TasksOk(n)
  {
    hide TaskOk;
  }

  lemma StillExclusive(e: Engine, n: Engine, id: nat)
    requires Concerns(e, n, id) && Exclusive(e) && KeysOk(e) && n.busyKeys == e.busyKeys
    requires n.tasks[id].key == e.tasks[id].key && Holds(n.tasks[id]) == Holds(e.tasks[id])
    ensures Exclusive(n) && KeysOk(n)
  {
    forall k | k in n.busyKeys
      ensures HasHolder(n, k)
    {
      StillHeld(e, n, k, id);
    }
  }

  /** A task moves on, keeping its key. */
  lemma MoveOk(e: Engine, n: Engine, id: nat)
    requires EngineOk(e) && StoredOk(e) && Concerns(e, n, id) && TaskOk(n.tasks[id]) && Agrees(n, id)
    requires n.tasks[id].key == e.tasks[id].key && Holds(n.tasks[id]) == Holds(e.tasks[id]) && n.busyKeys == e.busyKeys
    ensures EngineOk(n) && StoredOk(n)
  {
    hide Concerns, Agrees, TasksOk, KeysOk, Exclusive, ActiveOk, OutcomesOk, StoredOk, TaskOk, Holds;
    AllTasksOk(e, n, id);
    RegistersOk(e, n, id);
    StillExclusive(e, n, id);
  }

  /** A task ends its hold on its key. */
  lemma ReleaseOk(e: Engine, n: Engine, id: nat)
    requires EngineOk(e) && StoredOk(e) && Concerns(e, n, id) && TaskOk(n.tasks[id]) && Agrees(n, id)
    requires Holds(e.tasks[id]) && !Holds(n.tasks[id]) && n.busyKeys == e.busyKeys - {e.tasks[id].key}
    ensures EngineOk(n) && StoredOk(n)
  {
    hide Agrees, TasksOk, KeysOk, Exclusive, ActiveOk, OutcomesOk, StoredOk, TaskOk, Holds;
    AllTasksOk(e, n, id);
    RegistersOk(e, n, id);
    FreeKey(e, n, id);
  }

  lemma AgreesBefore(e: Engine, id: nat)
    requires EngineOk(e) && StoredOk(e) && id in e.tasks
    ensures Agrees(e, id) && TaskOk(e.tasks[id]) && (Holds(e.tasks[id]) ==> e.tasks[id].key in e.busyKeys)
  {
    hide TaskOk;
  }

  lemma StillHeld(e: Engine, n: Engine, k: string, id: nat)
    requires HasHolder(e, k)
    requires forall j :: j in e.tasks && j != id ==> j in n.tasks && n.tasks[j] == e.tasks[j]
    requires HolderIs(e, k, id) ==> HolderIs(n, k, id)
    ensures HasHolder(n, k)
  {
    var j :| HolderIs(e, k, j);
    assert HolderIs(n, k, j);
  }

  lemma ReserveOk(e: Engine, id: nat, key: string)
    requires EngineOk(e) && StoredOk(e) && Enabled(e, Reserve(id, key))
    ensures EngineOk(Next(e, Reserve(id, key))) && StoredOk(Next(e, Reserve(id, key)))
  {
    var n := Next(e, Reserve(id, key));
    assert TaskOk(n.tasks[id]);
    hide TaskOk;
    assert TasksOk(n) && ActiveOk(n) && OutcomesOk(n) && StoredOk(n);
    hide TasksOk, ActiveOk, OutcomesOk, StoredOk;
    ReserveKeys(e, id, key);
  }

  lemma ReserveKeys(e: Engine, id: nat, key: string)
    requires KeysOk(e) && Exclusive(e) && Enabled(e, Reserve(id, key))
    ensures KeysOk(Next(e, Reserve(id, key))) && Exclusive(Next(e, Reserve(id, key)))
  {
    hide HasHolder;
    var n := Next(e, Reserve(id, key));
    forall k | k in n.busyKeys
      ensures HasHolder(n, k)
    {
      if k == key {
        Holder(n, k, id);
      } else {
        StillHeld(e, n, k, id);
      }
    }
  }

  lemma Holder(e: Engine, k: string, id: nat)
    requires HolderIs(e, k, id)
    ensures HasHolder(e, k)
  {
  }

  /** Giving a key back leaves every other key with its holder. */
  lemma FreeKey(e: Engine, n: Engine, id: nat)
    requires KeysOk(e) && Exclusive(e) && id in e.tasks && Holds(e.tasks[id])
    requires n.busyKeys == e.busyKeys - {e.tasks[id].key}
    requires n.tasks.Keys == e.tasks.Keys && forall j :: j in e.tasks && j != id ==> n.tasks[j] == e.tasks[j]
    requires !Holds(n.tasks[id])
    ensures KeysOk(n) && Exclusive(n)
  {
    forall k | k in n.busyKeys
      ensures HasHolder(n, k)
    {
      StillHeld(e, n, k, id);
    }
  }

  lemma CallOk(t: Task, client: bool)
    requires TaskOk(t) && t.stage.Registered?
    ensures TaskOk(t.(stage := Transferring, ran := client))
  {
  }

  lemma ReturnOk(t: Task, failed: bool)
    requires TaskOk(t) && t.stage.Transferring? && (failed ==> t.ran)
    ensures TaskOk(t.(stage := Returned(failed)))
  {
  }

  lemma LookOk(t: Task)
    requires TaskOk(t) && t.stage == Returned(true)
    ensures TaskOk(t.(stage := Looked(t.token)))
  {
  }

  lemma DecideOk(t: Task)
    requires TaskOk(t) && (t.stage == Returned(false) || t.stage.Looked?)
    ensures TaskOk(t.(stage := Decided(t)))
  {
  }

  lemma GiveUpOk(t: Task)
    requires TaskOk(t) && t.stage.Reserved?
    ensures TaskOk(t.(stage := GivenUp)) && TaskOk(t.(stage := Registered)) && t.taken == []
  {
  }

  lemma ClientIsApart(e: Engine, on: bool)
    requires EngineOk(e) && StoredOk(e)
    ensures EngineOk(e.(client := on)) && StoredOk(e.(client := on))
  {
    hide TaskOk;
    var n := e.(client := on);
    forall k | k in n.busyKeys
      ensures HasHolder(n, k)
    {
      assert HasHolder(e, k);
      var id :| HolderIs(e, k, id);
      Holder(n, k, id);
    }
  }

  lemma ActionKeepsEngineOk(e: Engine, a: Action)
    requires EngineOk(e) && StoredOk(e) && Enabled(e, a)
    ensures EngineOk(Next(e, a)) && StoredOk(Next(e, a))
  {
    hide EngineOk, StoredOk, TaskOk;
    if a.Reserve? {
      ReserveOk(e, a.id, a.key);
    } else if a.SetClient? {
      ClientIsApart(e, a.on);
    } else {
      AgreesBefore(e, a.id);
      StepTaskOk(e, a);
      StepConcerns(e, a);
      StepAgrees(e, a);
      StepHolds(e, a);
      hide Next, Concerns, Agrees, Holds;
      if a.GiveUp? || a.CleanUp? {
        ReleaseOk(e, Next(e, a), a.id);
      } else {
        MoveOk(e, Next(e, a), a.id);
      }
    }
  }

  lemma StepTaskOk(e: Engine, a: Action)
    requires Enabled(e, a) && !a.Reserve? && !a.SetClient? && TaskOk(e.tasks[a.id]) && Agrees(e, a.id)
    ensures a.id in Next(e, a).tasks && TaskOk(Next(e, a).tasks[a.id])
  {
    hide TaskOk;
    var t := e.tasks[a.id];
    match a
    case GiveUp(id) => GiveUpOk(t);
    case Register(id) => GiveUpOk(t);
    case CallClient(id) => CallOk(t, e.client);
    case TransferReturns(id, failed) => ReturnOk(t, failed);
    case LookAtToken(id) => LookOk(t);
    case Decide(id) => DecideOk(t);
    case SetStatus(id) => SetStatusOk(t);
    case ReadStatus(id) => ReadStatusOk(t);
    case CleanUp(id) => CleanUpOk(t);
    case CancelToken(id) => CancelOk(t);
    case CancelStatus(id) => CancelOk(t);
    case TakeOutcome(id) => TakeOk(t);
  }

  /** What a step does to the shared collections. */
  lemma StepConcerns(e: Engine, a: Action)
    requires Enabled(e, a) && !a.Reserve? && !a.SetClient?
    ensures Concerns(e, Next(e, a), a.id)
  {
  }

  lemma StepAgrees(e: Engine, a: Action)
    requires Enabled(e, a) && !a.Reserve? && !a.SetClient? && TaskOk(e.tasks[a.id]) && Agrees(e, a.id)
    ensures a.id in Next(e, a).tasks && Agrees(Next(e, a), a.id)
  {
    NothingTakenYet(e.tasks[a.id]);
    hide TaskOk;
  }

  lemma StepHolds(e: Engine, a: Action)
    requires Enabled(e, a) && !a.Reserve? && !a.SetClient?
    ensures var n := Next(e, a);
            && a.id in n.tasks && n.tasks[a.id].key == e.tasks[a.id].key
            && (if a.GiveUp? || a.CleanUp? then
                  Holds(e.tasks[a.id]) && !Holds(n.tasks[a.id]) && n.busyKeys == e.busyKeys - {e.tasks[a.id].key}
                else Holds(n.tasks[a.id]) == Holds(e.tasks[a.id]) && n.busyKeys == e.busyKeys)
  {
  }

  lemma NothingTakenYet(t: Task)
    requires TaskOk(t)
    ensures !t.stage.Over? ==> t.taken == []
  {
    hide OutcomeFits, Undecided;
  }

  /** The outcome is stored in the very step in which the task leaves `active` and frees its own key. */
  lemma CleanUpReleases(e: Engine, id: nat)
    requires EngineOk(e) && StoredOk(e) && Enabled(e, CleanUp(id))
    ensures var n := Next(e, CleanUp(id));
            && id in e.active && id !in n.active && id in n.outcomes && id !in e.outcomes
            && e.tasks[id].key in e.busyKeys && n.busyKeys == e.busyKeys - {e.tasks[id].key}
            && EngineOk(n) && StoredOk(n)
  {
    hide EngineOk, StoredOk;
    AgreesBefore(e, id);
    ActionKeepsEngineOk(e, CleanUp(id));
  }

  // ---- runs ------------------------------------------------------------------------------------

  ghost predicate Step(e: Engine, a: Action, n: Engine) {
    Enabled(e, a) && n == Next(e, a)
  }

  /** A step of this engine, or of something else. */
  ghost predicate Moves(e: Engine, n: Engine) {
    e == n || exists a :: Step(e, a, n)
  }

  ghost predicate Run(run: seq<Engine>) {
    && run != [] && run[0] == Idle(run[0].client)
    && forall i, j :: 0 <= i < j < |run| && j == i + 1 ==> Moves(run[i], run[j])
  }

  lemma IdleIsOk(client: bool)
    ensures EngineOk(Idle(client)) && StoredOk(Idle(client))
  {
  }

  lemma {:induction false} RunIsOk(run: seq<Engine>, n: nat)
    requires Run(run) && n < |run|
    ensures EngineOk(run[n]) && StoredOk(run[n])
  {
    hide EngineOk, StoredOk, Enabled, Next;
    if n == 0 {
      IdleIsOk(run[0].client);
    } else {
      RunIsOk(run, n - 1);
      assert Moves(run[n - 1], run[n]);
      if run[n - 1] != run[n] {
        var a :| Step(run[n - 1], a, run[n]);
        ActionKeepsEngineOk(run[n - 1], a);
      }
    }
  }

  /** In every run without stop(): a key is held by at most one start attempt at a time, and is busy exactly
      while one holds it; every task that is over has stored exactly one outcome and no other has any. */
  lemma KeysAreExclusive(run: seq<Engine>, n: nat)
    requires Run(run) && n < |run|
    ensures var e := run[n];
            && Exclusive(e)
            && (forall k :: k in e.busyKeys <==> HasHolder(e, k))
            && (forall id :: id in e.tasks ==> e.tasks[id].recorded == if e.tasks[id].stage.Over? then 1 else 0)
            && (forall id :: id in e.active <==> id in e.tasks && HasTask(e.tasks[id]) && !e.tasks[id].stage.Over?)
            && (forall id :: id in e.active ==> id !in e.outcomes)
  {
    RunIsOk(run, n);
  }

  /** What waitTask returns for a stored outcome. */
  datatype Wait = ReturnsNormally | ThrowsCancelled | ThrowsFailed

  function WaitResult(s: Status): Wait {
    match s
    case Completed => ReturnsNormally
    case Cancelled => ThrowsCancelled
    case _ => ThrowsFailed
  }

  /** Each outcome is handed to one wait at most. That wait returns normally only if the transfer did not fail,
      throws "failed" only if the transfer was made and failed, with nobody having asked to cancel by the look after
      it, and "cancelled" only if the task was asked to cancel. */
  lemma WaitsAreTruthful(run: seq<Engine>, n: nat, id: nat)
    requires Run(run) && n < |run| && id in run[n].tasks && run[n].tasks[id].taken != []
    ensures var t := run[n].tasks[id];
            && |t.taken| == 1 && t.stage.Over? && t.taken[0] == t.stage.outcome
            && (WaitResult(t.taken[0]).ReturnsNormally? <==> t.stage.outcome.Completed?)
            && (WaitResult(t.taken[0]).ReturnsNormally? ==> !t.stage.failed)
            && (WaitResult(t.taken[0]).ThrowsFailed? ==> t.ran && t.stage.failed && !t.stage.asked)
            && (WaitResult(t.taken[0]).ThrowsCancelled? ==> t.token)
  {
    RunIsOk(run, n);
    AgreesBefore(run[n], id);
    hide EngineOk;
  }

  /** A task nobody cancels ends "completed" exactly when it made no transfer or the transfer did not fail. */
  lemma UncancelledIsExact(run: seq<Engine>, n: nat, id: nat)
    requires Run(run) && n < |run| && id in run[n].tasks && run[n].tasks[id].stage.Over? && !run[n].tasks[id].token
    ensures var t := run[n].tasks[id];
            && t.stage.outcome == (if t.ran && t.stage.failed then Failed else Completed)
            && (!t.ran ==> !t.stage.failed)
  {
    RunIsOk(run, n);
    AgreesBefore(run[n], id);
    hide EngineOk;
  }

  // ---- was there a client? ---------------------------------------------------------------------

  /** The k-th move of the run calls the transfer of the task. */
  ghost predicate CallsAt(run: seq<Engine>, k: nat, id: nat) {
    && k + 1 < |run| && id in run[k].tasks && run[k].tasks[id].stage.Registered?
    && id in run[k + 1].tasks && Called(run[k + 1].tasks[id])
  }

  lemma StepCalls(e: Engine, a: Action, id: nat)
    requires Enabled(e, a) && id in Next(e, a).tasks
    ensures var n := Next(e, a).tasks[id];
            && (id !in e.tasks ==> !Called(n))
            && (id in e.tasks && Called(e.tasks[id]) ==> Called(n) && n.ran == e.tasks[id].ran)
            && (id in e.tasks && !Called(e.tasks[id]) && Called(n) ==>
                e.tasks[id].stage.Registered? && n.ran == e.client)
  {
  }

  lemma StepKeepsTasks(e: Engine, a: Action, id: nat)
    requires Enabled(e, a) && id in e.tasks
    ensures id in Next(e, a).tasks
  {
  }

  lemma MoveCalls(e: Engine, n: Engine, id: nat)
    requires Moves(e, n) && id in n.tasks && Called(n.tasks[id])
    ensures id in e.tasks
    ensures if Called(e.tasks[id]) then n.tasks[id].ran == e.tasks[id].ran
            else e.tasks[id].stage.Registered? && n.tasks[id].ran == e.client
  {
    hide Next, Enabled, Called;
    if e != n {
      var a :| Step(e, a, n);
      StepCalls(e, a, id);
    }
  }

  lemma MoveKeepsCalled(e: Engine, n: Engine, id: nat)
    requires Moves(e, n) && id in e.tasks && Called(e.tasks[id])
    ensures id in n.tasks && Called(n.tasks[id])
  {
    hide Next, Enabled, Called;
    if e != n {
      var a :| Step(e, a, n);
      StepKeepsTasks(e, a, id);
      StepCalls(e, a, id);
    }
  }

  /** Every called transfer was called in some move, and ran exactly if a client was attached just then. */
  lemma {:induction false} CalledOnce(run: seq<Engine>, n: nat, id: nat) returns (k: nat)
    requires Run(run) && n < |run| && id in run[n].tasks && Called(run[n].tasks[id])
    ensures k < n && CallsAt(run, k, id) && run[n].tasks[id].ran == run[k].client
  {
    assert run[0].tasks == map[];
    if n > 0 {
      assert Moves(run[n - 1], run[n]);
      MoveCalls(run[n - 1], run[n], id);
      if Called(run[n - 1].tasks[id]) {
        k := CalledOnce(run, n - 1, id);
      } else {
        k := n - 1;
      }
    }
  }

  /** No later move calls it again. */
  lemma {:induction false} StaysCalled(run: seq<Engine>, k: nat, n: nat, id: nat)
    requires Run(run) && CallsAt(run, k, id) && k < n < |run|
    ensures id in run[n].tasks && Called(run[n].tasks[id]) && run[n].tasks[id].ran == run[k].client
  {
    hide Moves;
    assert Moves(run[n - 1], run[n]);
    if n == k + 1 {
      MoveCalls(run[k], run[n], id);
    } else {
      StaysCalled(run, k, n - 1, id);
      MoveKeepsCalled(run[n - 1], run[n], id);
      MoveCalls(run[n - 1], run[n], id);
    }
  }

  /** A task has made its transfer if and only if a client was attached at the move that called it. */
  lemma RanIffClientAtCall(run: seq<Engine>, n: nat, id: nat)
    requires Run(run) && n < |run| && id in run[n].tasks && Called(run[n].tasks[id])
    ensures exists k: nat :: k < n && CallsAt(run, k, id)
    ensures forall k: nat :: k < n && CallsAt(run, k, id) ==> (run[n].tasks[id].ran <==> run[k].client)
  {
    var c := CalledOnce(run, n, id);
    forall k: nat | k < n && CallsAt(run, k, id)
      ensures run[n].tasks[id].ran <==> run[k].client
    {
      StaysCalled(run, k, n, id);
    }
  }

  // ---- the object ------------------------------------------------------------------------------

  /** The three collections under activeLock; `model` adds the tasks' threads. */
  class SyncRegistry {
    var active: set<nat>
    var outcomes: map<nat, Status>
    var busyKeys: set<string>
    ghost var model: Engine

    ghost predicate Valid()
      reads this
    {
      && EngineOk(model) && StoredOk(model)
      && active == model.active && outcomes == model.outcomes && busyKeys == model.busyKeys
    }

    constructor (ghost client: bool)
      ensures Valid() && model == Idle(client)
    {
      active, outcomes, busyKeys, model := {}, map[], {}, Idle(client);
    }

    /** The first critical section of startWithProfile; false is profileBusy. */
    method ReserveSection(key: string, ghost id: nat) returns (ok: bool)
      requires Valid() && id !in model.tasks
      modifies this
      ensures Valid() && (ok <==> key !in old(busyKeys))
      ensures model == if ok then Next(old(model), Reserve(id, key)) else old(model)
      ensures busyKeys == (if ok then old(busyKeys) + {key} else old(busyKeys))
      ensures active == old(active) && outcomes == old(outcomes)
    {
      hide EngineOk, StoredOk;
      if key in busyKeys {
        return false;
      }
      ActionKeepsEngineOk(model, Reserve(id, key));
      model := Next(model, Reserve(id, key));
      busyKeys := busyKeys + {key};
      return true;
    }

    method RegisterSection(id: nat)
      requires Valid() && Enabled(model, Register(id))
      modifies this
      ensures Valid() && model == Next(old(model), Register(id))
      ensures active == old(active) + {id} && outcomes == old(outcomes) && busyKeys == old(busyKeys)
    {
      hide EngineOk, StoredOk;
      ActionKeepsEngineOk(model, Register(id));
      model := Next(model, Register(id));
      active := active + {id};
    }

    /** The deferred block of runSync. */
    method CleanUpSection(id: nat, key: string, status: Status)
      requires Valid() && Enabled(model, CleanUp(id))
      requires model.tasks[id].key == key && model.tasks[id].stage.outcome == status
      modifies this
      ensures Valid() && model == Next(old(model), CleanUp(id))
      ensures outcomes == old(outcomes)[id := status]
      ensures active == old(active) - {id} && busyKeys == old(busyKeys) - {key}
    {
      hide EngineOk, StoredOk;
      ActionKeepsEngineOk(model, CleanUp(id));
      model := Next(model, CleanUp(id));
      outcomes := outcomes[id := status];
      active := active - {id};
      busyKeys := busyKeys - {key};
    }

    /** One look of waitTask, and what it then does; None is another tick of sleep. */
    method TakeSection(id: nat) returns (r: Option<Wait>)
      requires Valid() && id in model.tasks
      modifies this
      ensures Valid()
      ensures r == if id in old(outcomes) then Some(WaitResult(old(outcomes)[id])) else None
      ensures model == if r.Some? then Next(old(model), TakeOutcome(id)) else old(model)
      ensures outcomes == old(outcomes) - {id} && active == old(active) && busyKeys == old(busyKeys)
    {
      hide EngineOk, StoredOk;
      if id !in outcomes {
        return None;
      }
      ActionKeepsEngineOk(model, TakeOutcome(id));
      model := Next(model, TakeOutcome(id));
      r := Some(WaitResult(outcomes[id]));
      outcomes := outcomes - {id};
    }
  }
}
