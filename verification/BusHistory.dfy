/** Who gets a published event, told from the list of actions alone: subscriptions, cancellations and publishes in their
    order, against the lists of subscriptions and what each one has accepted. */
module BusHistory {
  import opened EventBus

  /** The bus goes through these states, one for each action and the new one before. */
  ghost predicate Plays(actions: seq<Action>, states: seq<Bus>) {
    && |states| == |actions| + 1 && states[0] == NewBus()
    && forall i :: 0 <= i < |actions| ==> Follows(actions, states, i)
  }

  ghost predicate Follows(actions: seq<Action>, states: seq<Bus>, i: nat)
    requires i < |actions| && |states| == |actions| + 1
  {
    Step(states[i], actions[i], states[i + 1])
  }

  lemma StepAt(actions: seq<Action>, states: seq<Bus>, i: nat)
    requires Plays(actions, states) && i < |actions|
    ensures Step(states[i], actions[i], states[i + 1])
  {
    assert Follows(actions, states, i);
  }

  // ---- reading the list ------------------------------------------------------------------------

  /** How often the subscription is due to get an event of the topic that is published after the first n actions: as
      often as the topic was named, and not at all before it subscribed, after it was cancelled, or once the bus is
      closed. */
  function Due(actions: seq<Action>, n: nat, id: nat, topic: string): nat
    requires n <= |actions|
  {
    if n == 0 then 0
    else
      match actions[n - 1]
      case Subscribe(i, names) =>
        if i != id then Due(actions, n - 1, id, topic)
        else if Closed(actions, n - 1) then 0
        else multiset(names)[topic]
      case Cancel(i) => if i == id then 0 else Due(actions, n - 1, id, topic)
      case Close => 0
      case _ => Due(actions, n - 1, id, topic)
  }

  predicate Closed(actions: seq<Action>, n: nat)
    requires n <= |actions|
  {
    n > 0 && (actions[n - 1].Close? || Closed(actions, n - 1))
  }

  /** How many times the event was published for the subscription. */
  function Sent(actions: seq<Action>, n: nat, id: nat, ev: Event): nat
    requires n <= |actions|
  {
    if n == 0 then 0
    else Sent(actions, n - 1, id, ev) + if actions[n - 1] == Publish(ev) then Due(actions, n - 1, id, ev.topic) else 0
  }

  predicate StopDone(actions: seq<Action>, n: nat, id: nat)
    requires n <= |actions|
  {
    n > 0 && (actions[n - 1] == StopOne(id) || StopDone(actions, n - 1, id))
  }

  // ---- the lists -------------------------------------------------------------------------------

  lemma {:induction false} AddToCounts(topics: map<string, seq<nat>>, names: seq<string>, id: nat, t: string, x: nat)
    ensures multiset(At(AddTo(topics, names, id), t))[x]
      == multiset(At(topics, t))[x] + if x == id then multiset(names)[t] else 0
  {
    if names != [] {
      var n := |names| - 1;
      AddToCounts(topics, names[..n], id, t, x);
      assert names == names[..n] + [names[n]];
    }
  }

  lemma {:induction false} RemoveFirstCounts(list: seq<nat>, id: nat, x: nat)
    ensures multiset(RemoveFirst(list, id))[x]
      == multiset(list)[x] - if x == id && id in list then 1 else 0
  {
    if list != [] {
      assert list == [list[0]] + list[1..];
      RemoveFirstCounts(list[1..], id, x);
    }
  }

  /** A cancel removes one entry for each name. */
  lemma {:induction false} RemoveFromCounts(topics: map<string, seq<nat>>, names: seq<string>, id: nat, t: string,
                                            x: nat)
    ensures multiset(At(RemoveFrom(topics, names, id), t))[x]
      == if x != id then multiset(At(topics, t))[x]
         else if multiset(At(topics, t))[id] >= multiset(names)[t] then multiset(At(topics, t))[id] - multiset(names)[t]
         else 0
  {
    if names != [] {
      var n := |names| - 1;
      RemoveFromCounts(topics, names[..n], id, t, x);
      assert names == names[..n] + [names[n]];
      var m := RemoveFrom(topics, names[..n], id);
      if names[n] in m {
        RemoveFirstCounts(m[names[n]], id, x);
      }
    }
  }

  lemma {:induction false} PlaysOk(actions: seq<Action>, states: seq<Bus>, n: nat)
    requires Plays(actions, states) && n <= |actions|
    ensures BusOk(states[n]) && states[n].closed == Closed(actions, n)
  {
    if n == 0 {
      NewIsOk();
    } else {
      PlaysOk(actions, states, n - 1);
      StepAt(actions, states, n - 1);
      ActionKeepsBusOk(states[n - 1], actions[n - 1]);
      CloseStep(states[n - 1], actions[n - 1]);
    }
    hide *;
  }

  lemma CloseStep(b: Bus, a: Action)
    requires Enabled(b, a)
    ensures Next(b, a).closed == (b.closed || a.Close?)
  {
  }

  /** What the lists and the names kept for the cancel closure say of one subscription and topic. */
  ghost predicate Lists(actions: seq<Action>, n: nat, id: nat, t: string, b: Bus)
    requires n <= |actions|
  {
    && multiset(At(b.topics, t))[id] == Due(actions, n, id, t)
    && (Due(actions, n, id, t) == 0 || (id in b.wanted && Due(actions, n, id, t) == multiset(b.wanted[id])[t]))
    && (id !in b.subs ==> Due(actions, n, id, t) == 0)
  }

  /** After every action a subscription is listed under a topic exactly as often as it is due. */
  lemma {:induction false} ListedAsDue(actions: seq<Action>, states: seq<Bus>, n: nat, id: nat, t: string)
    requires Plays(actions, states) && n <= |actions|
    ensures Lists(actions, n, id, t, states[n])
  {
    if n > 0 {
      ListedAsDue(actions, states, n - 1, id, t);
      PlaysOk(actions, states, n - 1);
      StepAt(actions, states, n - 1);
      ListsStep(actions, n - 1, id, t, states[n - 1]);
    } else {
      NothingListed(actions, id, t);
    }
    hide *;
  }

  lemma NothingListed(actions: seq<Action>, id: nat, t: string)
    ensures Lists(actions, 0, id, t, NewBus())
  {
  }

  lemma ListsStep(actions: seq<Action>, n: nat, id: nat, t: string, b: Bus)
    requires n < |actions| && Enabled(b, actions[n]) && Lists(actions, n, id, t, b) && b.closed == Closed(actions, n)
    requires b.closed ==> b.topics == map[]
    ensures Lists(actions, n + 1, id, t, Next(b, actions[n]))
  {
    if actions[n].Subscribe? {
      SubscribeLists(actions, n, id, t, b);
    } else if actions[n].Cancel? {
      CancelLists(actions, n, id, t, b);
    } else {
      hide Enqueue, Schedule, Take, Handle, Stop;
    }
  }

  lemma SubscribeLists(actions: seq<Action>, n: nat, id: nat, t: string, b: Bus)
    requires n < |actions| && actions[n].Subscribe? && Enabled(b, actions[n]) && Lists(actions, n, id, t, b)
    requires b.closed == Closed(actions, n) && (b.closed ==> b.topics == map[])
    ensures Lists(actions, n + 1, id, t, Next(b, actions[n]))
  {
    AddToCounts(b.topics, actions[n].names, actions[n].id, t, id);
    hide AddTo;
  }

  lemma CancelLists(actions: seq<Action>, n: nat, id: nat, t: string, b: Bus)
    requires n < |actions| && actions[n].Cancel? && Enabled(b, actions[n]) && Lists(actions, n, id, t, b)
    ensures Lists(actions, n + 1, id, t, Next(b, actions[n]))
  {
    RemoveFromCounts(b.topics, b.wanted[actions[n].id], actions[n].id, t, id);
    hide RemoveFrom;
  }

  // ---- publishing ------------------------------------------------------------------------------

  /** A publish starts a delivery that is to reach every subscription as often as it is due. */
  lemma PublishReachesTheDue(actions: seq<Action>, states: seq<Bus>, n: nat, ev: Event, id: nat)
    requires Plays(actions, states) && n < |actions| && actions[n] == Publish(ev)
    ensures |states[n + 1].deliveries| == |states[n].deliveries| + 1
    ensures var d := states[n + 1].deliveries[|states[n].deliveries|];
            d.ev == ev && multiset(d.targets)[id] == Due(actions, n, id, ev.topic)
  {
    StepAt(actions, states, n);
    PlaysOk(actions, states, n);
    ListedAsDue(actions, states, n, id, ev.topic);
    if states[n].closed {
      ClosedIsDone(actions, n, id, ev.topic);
    }
    hide Plays, BusOk, Due;
  }

  lemma {:induction false} ClosedIsDone(actions: seq<Action>, n: nat, id: nat, t: string)
    requires n <= |actions| && Closed(actions, n)
    ensures Due(actions, n, id, t) == 0
  {
    if !actions[n - 1].Close? {
      ClosedIsDone(actions, n - 1, id, t);
    }
  }

  /** Deliveries of the event that are still to reach the subscription. */
  function Pending(ds: seq<Delivery>, id: nat, ev: Event): nat {
    if ds == [] then 0
    else
      var d := ds[|ds| - 1];
      Pending(ds[..|ds| - 1], id, ev) + if d.ev == ev then multiset(d.targets)[id] else 0
  }

  lemma {:induction false} PendingDelivered(ds: seq<Delivery>, i: nat, id: nat, ev: Event)
    requires i < |ds| && ds[i].targets != []
    ensures Pending(ds[i := ds[i].(targets := ds[i].targets[1..])], id, ev)
      + (if ds[i].ev == ev && ds[i].targets[0] == id then 1 else 0) == Pending(ds, id, ev)
  {
    var l := |ds| - 1;
    var p := ds[i].(targets := ds[i].targets[1..]);
    assert ds[i].targets == [ds[i].targets[0]] + p.targets;
    if i < l {
      PendingDelivered(ds[..l], i, id, ev);
      assert ds[i := p][..l] == ds[..l][i := p];
    } else {
      assert ds[i := p][..l] == ds[..l];
    }
  }

  /** The count of an event at one subscription: published for it, on its way, or accepted; nothing is lost or made up
      until the subscription is stopped, and nothing is made up after. */
  ghost predicate Counts(actions: seq<Action>, n: nat, id: nat, ev: Event, b: Bus)
    requires n <= |actions|
  {
    if id !in b.subs then
      Sent(actions, n, id, ev) == 0 && Pending(b.deliveries, id, ev) == 0 && !StopDone(actions, n, id)
    else
      && b.subs[id].stopped == StopDone(actions, n, id)
      && multiset(b.subs[id].accepted)[ev] + Pending(b.deliveries, id, ev) <= Sent(actions, n, id, ev)
      && (!b.subs[id].stopped ==>
            multiset(b.subs[id].accepted)[ev] + Pending(b.deliveries, id, ev) == Sent(actions, n, id, ev))
  }

  lemma {:induction false} EventsAreCounted(actions: seq<Action>, states: seq<Bus>, n: nat, id: nat, ev: Event)
    requires Plays(actions, states) && n <= |actions|
    ensures Counts(actions, n, id, ev, states[n])
  {
    if n > 0 {
      EventsAreCounted(actions, states, n - 1, id, ev);
      StepAt(actions, states, n - 1);
      if actions[n - 1].Publish? {
        PublishReachesTheDue(actions, states, n - 1, actions[n - 1].ev, id);
        ListedAsDue(actions, states, n - 1, id, ev.topic);
        PublishCounts(actions, n - 1, id, ev, states[n - 1]);
      } else {
        CountsStep(actions, n - 1, id, ev, states[n - 1]);
      }
    } else {
      NothingCounted(actions, id, ev);
    }
    hide *;
  }

  lemma NothingCounted(actions: seq<Action>, id: nat, ev: Event)
    ensures Counts(actions, 0, id, ev, NewBus())
  {
  }

  lemma PublishCounts(actions: seq<Action>, n: nat, id: nat, ev: Event, b: Bus)
    requires n < |actions| && actions[n].Publish? && Counts(actions, n, id, ev, b)
    requires id !in b.subs ==> Due(actions, n, id, ev.topic) == 0
    requires var c := Next(b, actions[n]);
             && |c.deliveries| == |b.deliveries| + 1
             && c.deliveries[|b.deliveries|].ev == actions[n].ev
             && multiset(c.deliveries[|b.deliveries|].targets)[id] == Due(actions, n, id, actions[n].ev.topic)
    ensures Counts(actions, n + 1, id, ev, Next(b, actions[n]))
  {
    var c := Next(b, actions[n]);
    assert c.deliveries[..|b.deliveries|] == b.deliveries;
    hide Due;
  }

  lemma CountsStep(actions: seq<Action>, n: nat, id: nat, ev: Event, b: Bus)
    requires n < |actions| && !actions[n].Publish? && Enabled(b, actions[n]) && Counts(actions, n, id, ev, b)
    ensures Counts(actions, n + 1, id, ev, Next(b, actions[n]))
  {
    if actions[n].Deliver? {
      DeliverCounts(actions, n, id, ev, b);
    } else {
      OthersCount(actions, n, id, ev, b);
    }
  }

  lemma DeliverCounts(actions: seq<Action>, n: nat, id: nat, ev: Event, b: Bus)
    requires n < |actions| && actions[n].Deliver? && Enabled(b, actions[n]) && Counts(actions, n, id, ev, b)
    ensures Counts(actions, n + 1, id, ev, Next(b, actions[n]))
  {
    var d := actions[n].d;
    PendingDelivered(b.deliveries, d, id, ev);
    DeliverKeeps(b, d, id);
    assert Sent(actions, n + 1, id, ev) == Sent(actions, n, id, ev);
    hide Pending, Sent, Next, Enabled;
  }

  lemma DeliverKeeps(b: Bus, d: nat, id: nat)
    requires Enabled(b, Deliver(d))
    ensures var c, p := Next(b, Deliver(d)), b.deliveries[d];
            && c.deliveries == b.deliveries[d := p.(targets := p.targets[1..])]
            && (id in c.subs <==> id in b.subs) && (p.targets[0] == id ==> id in b.subs)
            && (id in b.subs ==>
                  && c.subs[id].stopped == b.subs[id].stopped
                  && c.subs[id].accepted == b.subs[id].accepted
                     + if p.targets[0] == id && !b.subs[id].stopped then [p.ev] else [])
  {
  }

  lemma OthersCount(actions: seq<Action>, n: nat, id: nat, ev: Event, b: Bus)
    requires n < |actions| && !actions[n].Publish? && !actions[n].Deliver?
    requires Enabled(b, actions[n]) && Counts(actions, n, id, ev, b)
    ensures Counts(actions, n + 1, id, ev, Next(b, actions[n]))
  {
    OthersKeep(b, actions[n], id);
    assert Sent(actions, n + 1, id, ev) == Sent(actions, n, id, ev);
    hide Pending, Next, Enabled, Sent;
  }

  lemma OthersKeep(b: Bus, a: Action, id: nat)
    requires Enabled(b, a) && !a.Publish? && !a.Deliver?
    ensures var c := Next(b, a);
            && c.deliveries == b.deliveries
            && (id in c.subs <==> id in b.subs || (a.Subscribe? && a.id == id))
            && (id in b.subs ==> c.subs[id].accepted == b.subs[id].accepted
                                 && c.subs[id].stopped == (b.subs[id].stopped || a == StopOne(id)))
            && (id in c.subs && id !in b.subs ==> c.subs[id].accepted == [] && !c.subs[id].stopped)
            && (a == StopOne(id) ==> id in b.subs)
  {
    hide AddTo, RemoveFrom;
  }

  ghost predicate NoneOnTheirWay(ds: seq<Delivery>, ev: Event) {
    forall d :: d in ds ==> d.ev != ev || d.targets == []
  }

  /** A subscription that has not been stopped has accepted an event as often as it was published for it, once the
      deliveries of that event have gone out; and never more often. */
  lemma PublishedIsAccepted(actions: seq<Action>, states: seq<Bus>, n: nat, id: nat, ev: Event)
    requires Plays(actions, states) && n <= |actions| && id in states[n].subs
    ensures var s := states[n].subs[id];
            && multiset(s.accepted)[ev] <= Sent(actions, n, id, ev)
            && (!StopDone(actions, n, id) && NoneOnTheirWay(states[n].deliveries, ev) ==>
                  multiset(s.accepted)[ev] == Sent(actions, n, id, ev))
  {
    EventsAreCounted(actions, states, n, id, ev);
    hide Plays, Sent, StopDone;
    if NoneOnTheirWay(states[n].deliveries, ev) {
      NothingPending(states[n].deliveries, id, ev);
    }
  }

  lemma {:induction false} NothingPending(ds: seq<Delivery>, id: nat, ev: Event)
    requires NoneOnTheirWay(ds, ev)
    ensures Pending(ds, id, ev) == 0
  {
    if ds != [] {
      assert ds[|ds| - 1] in ds;
      NothingPending(ds[..|ds| - 1], id, ev);
    }
  }

  /** What a step adds to what a subscription has accepted: the event of a delivery that reaches it before it is
      stopped, at the end, and nothing else. */
  lemma AcceptsInOrder(b: Bus, a: Action, id: nat)
    requires Enabled(b, a) && id in b.subs
    ensures id in Next(b, a).subs
    ensures Next(b, a).subs[id].accepted == b.subs[id].accepted +
              if a.Deliver? && b.deliveries[a.d].targets[0] == id && !b.subs[id].stopped then [b.deliveries[a.d].ev]
              else []
  {
    hide AddTo, RemoveFrom;
  }

  // ---- stopping --------------------------------------------------------------------------------

  /** The subscription is to be stopped: it was cancelled, or the bus was closed while it was due anything. */
  ghost predicate StopDue(actions: seq<Action>, n: nat, id: nat)
    requires n <= |actions|
  {
    n > 0 && (|| actions[n - 1] == Cancel(id)
              || (actions[n - 1].Close? && DueAny(actions, n - 1, id))
              || StopDue(actions, n - 1, id))
  }

  ghost predicate DueAny(actions: seq<Action>, n: nat, id: nat)
    requires n <= |actions|
  {
    exists t :: Due(actions, n, id, t) > 0
  }

  lemma {:induction false} StopIsDue(actions: seq<Action>, states: seq<Bus>, n: nat, id: nat)
    requires Plays(actions, states) && n <= |actions|
    ensures id in states[n].toStop <==> StopDue(actions, n, id)
  {
    if n > 0 {
      StopIsDue(actions, states, n - 1, id);
      StepAt(actions, states, n - 1);
      ListedIsDue(actions, states, n - 1, id);
      PlaysOk(actions, states, n - 1);
      ToStopStep(states[n - 1], actions[n - 1], id);
    }
    hide Next, Enabled, Listed, DueAny, SubOk, Addressed, OnlyWanted;
  }

  lemma ToStopStep(b: Bus, a: Action, id: nat)
    requires Enabled(b, a) && (b.closed ==> b.topics == map[])
    ensures id in Next(b, a).toStop <==>
              id in b.toStop || a == Cancel(id) || (a.Close? && id in Listed(b.topics))
  {
    hide AddTo, RemoveFrom;
  }

  lemma ListedIsDue(actions: seq<Action>, states: seq<Bus>, n: nat, id: nat)
    requires Plays(actions, states) && n <= |actions|
    ensures id in Listed(states[n].topics) <==> DueAny(actions, n, id)
  {
    assert |states| == |actions| + 1;
    hide Plays, Due;
    var m := states[n].topics;
    if id in Listed(m) {
      var t :| t in m && id in m[t];
      ListedAsDue(actions, states, n, id, t);
    }
    if DueAny(actions, n, id) {
      var t :| Due(actions, n, id, t) > 0;
      ListedAsDue(actions, states, n, id, t);
      assert id in At(m, t);
    }
  }

  // ---- what may happen next --------------------------------------------------------------------

  /** Anybody may publish, close or cancel at any time, a new subscription may be made, and whatever is on its way to a
      subscription may move on. */
  lemma AllMay(b: Bus, ev: Event, id: nat, names: seq<string>, d: nat)
    requires BusOk(b)
    ensures Enabled(b, Publish(ev)) && Enabled(b, Close)
    ensures if id !in b.subs then Enabled(b, Subscribe(id, names)) else Enabled(b, Cancel(id))
    ensures id in b.subs ==> (Enabled(b, StopOne(id)) <==> id in b.toStop)
    ensures Enabled(b, Deliver(d)) <==> d < |b.deliveries| && b.deliveries[d].targets != []
    ensures id in b.subs ==> (Enabled(b, Post(id)) <==> b.subs[id].owed > 0)
    ensures id in b.subs ==> (Enabled(b, RunHandler(id)) <==> b.subs[id].inHand.Some?)
    ensures id in b.subs ==> (Enabled(b, Drain(id)) <==> b.subs[id].scheduled > 0 && b.subs[id].inHand.None?)
  {
    hide SubOk, OnlyWanted;
    if d < |b.deliveries| {
      assert Addressed(b, b.deliveries[d]);
    }
  }
}
