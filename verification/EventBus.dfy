/** The event bus: subscriptions with a bounded mailbox, each drained on its own serial queue, and every
    interleaving of publishers, drains, cancellations and close. */
module EventBus {
  import opened Wrappers

  const CAPACITY := 64

  datatype Event = Event(topic: string, body: string)

  // ---- one subscription ------------------------------------------------------------------------

  /** A subscription with its history. `accepted` lists every event ever put into the mailbox, `head` counts
      those that have left it; `handled` holds positions in `accepted`. A publisher that has left the critical
      section of enqueue without having scheduled its drain is owed; `inHand` is the event a drain has taken
      out of the mailbox and not yet passed to the handler. */
  datatype Sub = Sub(mailbox: seq<Event>, stopped: bool, scheduled: nat, owed: nat, inHand: Option<nat>,
                     accepted: seq<Event>, head: nat, handled: seq<nat>, dropped: set<nat>, cleared: set<nat>)

  function Fresh(): Sub {
    Sub([], false, 0, 0, None, [], 0, [], {}, {})
  }

  /** The critical section of enqueue; its drain is now owed. */
  function Enqueue(s: Sub, ev: Event): Sub {
    if s.stopped then s.(owed := s.owed + 1)
    else if |s.mailbox| >= CAPACITY then
      s.(mailbox := s.mailbox[1..] + [ev], owed := s.owed + 1, accepted := s.accepted + [ev],
         head := s.head + 1, dropped := s.dropped + {s.head})
    else
      s.(mailbox := s.mailbox + [ev], owed := s.owed + 1, accepted := s.accepted + [ev])
  }

  /** queue.async after the critical section. */
  function Schedule(s: Sub): Sub
    requires s.owed > 0
  {
    s.(owed := s.owed - 1, scheduled := s.scheduled + 1)
  }

  /** The critical section of a drain; the queue is serial, so no other drain is under way. */
  function Take(s: Sub): Sub
    requires s.scheduled > 0 && s.inHand.None?
  {
    if s.stopped || s.mailbox == [] then s.(scheduled := s.scheduled - 1)
    else s.(scheduled := s.scheduled - 1, mailbox := s.mailbox[1..], head := s.head + 1, inHand := Some(s.head))
  }

  /** The handler runs. */
  function Handle(s: Sub): Sub
    requires s.inHand.Some?
  {
    s.(inHand := None, handled := s.handled + [s.inHand.value])
  }

  function Stop(s: Sub): Sub {
    s.(stopped := true, mailbox := [], head := |s.accepted|,
       cleared := s.cleared + set i: nat | i < |s.accepted| && Waits(s, i))
  }

  predicate Waits(s: Sub, i: nat) {
    s.head <= i < |s.accepted|
  }

  /** Positions in the order of arrival. */
  ghost predicate Increasing(a: seq<nat>) {
    forall i, j :: 0 <= i < j < |a| ==> a[i] < a[j]
  }

  /** The mailbox is a window of what was accepted; everything before it was handled, is in hand, was dropped or
      was cleared by stop; and until stop there is a drain for every waiting event. */
  ghost predicate SubOk(s: Sub) {
    && s.head <= |s.accepted| && s.mailbox == s.accepted[s.head..]
    && |s.mailbox| <= CAPACITY
    && Increasing(s.handled)
    && (forall i :: i in s.handled ==> i < s.head)
    && (s.inHand.Some? ==> s.inHand.value < s.head && forall i :: i in s.handled ==> i < s.inHand.value)
    && (forall i :: 0 <= i < s.head ==> i in s.handled || s.inHand == Some(i) || i in s.dropped || i in s.cleared)
    && (forall i :: i in s.dropped + s.cleared ==> i < s.head && i !in s.handled && s.inHand != Some(i))
    && (forall i :: i in s.dropped ==> i + CAPACITY < |s.accepted|)
    && (!s.stopped ==> s.cleared == {} && s.owed + s.scheduled >= |s.mailbox|)
    && (s.stopped ==> s.mailbox == [])
  }

  lemma FreshOk()
    ensures SubOk(Fresh())
  {
  }

  lemma EnqueueOk(s: Sub, ev: Event)
    requires SubOk(s)
    ensures SubOk(Enqueue(s, ev))
    ensures s.accepted <= Enqueue(s, ev).accepted
  {
    var t := Enqueue(s, ev);
    if !s.stopped {
      assert t.accepted[t.head..] == t.mailbox;
    }
  }

  lemma ScheduleOk(s: Sub)
    requires SubOk(s) && s.owed > 0
    ensures SubOk(Schedule(s))
  {
  }

  lemma TakeOk(s: Sub)
    requires SubOk(s) && s.scheduled > 0 && s.inHand.None?
    ensures SubOk(Take(s))
  {
    var t := Take(s);
    if !s.stopped && s.mailbox != [] {
      assert t.accepted[t.head..] == t.mailbox;
    }
  }

  lemma HandleOk(s: Sub)
    requires SubOk(s) && s.inHand.Some?
    ensures SubOk(Handle(s))
  {
    var t := Handle(s);
    assert forall i :: 0 <= i < |s.handled| ==> s.handled[i] in s.handled;
    assert forall i :: i in t.handled <==> i in s.handled || i == s.inHand.value;
  }

  lemma StopOk(s: Sub)
    requires SubOk(s)
    ensures SubOk(Stop(s))
  {
  }

  /** Handled events are a subsequence of the accepted ones. */
  ghost predicate Subsequence(part: seq<Event>, whole: seq<Event>, at: seq<nat>) {
    && |part| == |at| && Increasing(at)
    && forall i :: 0 <= i < |at| ==> at[i] < |whole| && part[i] == whole[at[i]]
  }

  function HandledEvents(s: Sub): (r: seq<Event>)
    requires forall i :: i in s.handled ==> i < |s.accepted|
  {
    seq(|s.handled|, i requires 0 <= i < |s.handled| => assert s.handled[i] in s.handled; s.accepted[s.handled[i]])
  }

  /** What a healthy subscription promises. */
  lemma SubPromises(s: Sub)
    requires SubOk(s)
    ensures Subsequence(HandledEvents(s), s.accepted, s.handled)
    ensures |s.mailbox| <= 64
    ensures forall i :: i in s.dropped ==> i + 64 < |s.accepted|
    ensures !s.stopped && s.owed == 0 && s.scheduled == 0 ==> s.mailbox == []
    ensures !s.stopped && s.owed == 0 && s.scheduled == 0 && s.inHand.None? ==>
              forall i :: 0 <= i < |s.accepted| ==> i in s.handled || i in s.dropped
  {
    forall i | 0 <= i < |s.handled|
      ensures s.handled[i] < |s.accepted|
    {
      assert s.handled[i] in s.handled;
    }
  }

  /** An event leaves the mailbox unhandled only when 64 newer ones are accepted while it waits. */
  lemma DropNeedsNewer(s: Sub, ev: Event, i: nat)
    requires SubOk(s) && i !in s.dropped && i in Enqueue(s, ev).dropped
    ensures i == s.head && |Enqueue(s, ev).accepted| - i == 65
  {
  }

  // ---- the whole bus ---------------------------------------------------------------------------

  /** A publish under way: the event and the subscriptions still to be reached. */
  datatype Delivery = Delivery(ev: Event, targets: seq<nat>)

  datatype Bus = Bus(topics: map<string, seq<nat>>, closed: bool, subs: map<nat, Sub>, wanted: map<nat, seq<string>>,
                     deliveries: seq<Delivery>, toStop: set<nat>)

  datatype Action =
    | Subscribe(id: nat, names: seq<string>)
    | Cancel(id: nat)
    | StopOne(id: nat)
    | Publish(ev: Event)
    | Deliver(d: nat)
    | Post(id: nat)
    | Drain(id: nat)
    | RunHandler(id: nat)
    | Close

  function At(topics: map<string, seq<nat>>, t: string): seq<nat> {
    if t in topics then topics[t] else []
  }

  /** The loop of subscribeAll. */
  function AddTo(topics: map<string, seq<nat>>, names: seq<string>, id: nat): map<string, seq<nat>> {
    if names == [] then topics
    else
      var m := AddTo(topics, names[..|names| - 1], id);
      var t := names[|names| - 1];
      m[t := At(m, t) + [id]]
  }

  function RemoveFirst(list: seq<nat>, id: nat): seq<nat> {
    if list == [] then [] else if list[0] == id then list[1..] else [list[0]] + RemoveFirst(list[1..], id)
  }

  /** The loop of a cancel closure. */
  function RemoveFrom(topics: map<string, seq<nat>>, names: seq<string>, id: nat): map<string, seq<nat>> {
    if names == [] then topics
    else
      var m := RemoveFrom(topics, names[..|names| - 1], id);
      var t := names[|names| - 1];
      if t in m then m[t := RemoveFirst(m[t], id)] else m
  }

  ghost predicate Enabled(b: Bus, a: Action) {
    match a
    case Subscribe(id, _) => id !in b.subs
    case Cancel(id) => id in b.subs && id in b.wanted
    case StopOne(id) => id in b.subs && id in b.toStop
    case Publish(_) => true
    case Deliver(d) => d < |b.deliveries| && b.deliveries[d].targets != [] && b.deliveries[d].targets[0] in b.subs
    case Post(id) => id in b.subs && b.subs[id].owed > 0
    case Drain(id) => id in b.subs && b.subs[id].scheduled > 0 && b.subs[id].inHand.None?
    case RunHandler(id) => id in b.subs && b.subs[id].inHand.Some?
    case Close => true
  }

  function Listed(topics: map<string, seq<nat>>): set<nat> {
    set t, id | t in topics && id in topics[t] :: id
  }

  /** One critical section, or one step between two of them. */
  function Next(b: Bus, a: Action): Bus
    requires Enabled(b, a)
  {
    match a
    case Subscribe(id, names) =>
      var c := b.(subs := b.subs[id := Fresh()], wanted := b.wanted[id := names]);
      if b.closed then c else c.(topics := AddTo(b.topics, names, id))
    case Cancel(id) => b.(topics := RemoveFrom(b.topics, b.wanted[id], id), toStop := b.toStop + {id})
    case StopOne(id) => b.(subs := b.subs[id := Stop(b.subs[id])])
    case Publish(ev) => b.(deliveries := b.deliveries + [Delivery(ev, if b.closed then [] else At(b.topics, ev.topic))])
    case Deliver(d) =>
      var p := b.deliveries[d];
      b.(subs := b.subs[p.targets[0] := Enqueue(b.subs[p.targets[0]], p.ev)],
         deliveries := b.deliveries[d := p.(targets := p.targets[1..])])
    case Post(id) => b.(subs := b.subs[id := Schedule(b.subs[id])])
    case Drain(id) => b.(subs := b.subs[id := Take(b.subs[id])])
    case RunHandler(id) => b.(subs := b.subs[id := Handle(b.subs[id])])
    case Close => if b.closed then b else b.(closed := true, topics := map[], toStop := b.toStop + Listed(b.topics))
  }

  /** Every subscription is healthy and has accepted only events of topics it asked for. */
  ghost predicate BusOk(b: Bus) {
    && (forall id :: id in b.subs ==>
          SubOk(b.subs[id]) && id in b.wanted && OnlyWanted(b.subs[id].accepted, b.wanted[id]))
    && (forall t, id :: t in b.topics && id in b.topics[t] ==> id in b.subs && id in b.wanted && t in b.wanted[id])
    && (forall d :: 0 <= d < |b.deliveries| ==> Addressed(b, b.deliveries[d]))
    && (b.closed ==> b.topics == map[])
  }

  ghost predicate OnlyWanted(accepted: seq<Event>, wanted: seq<string>) {
    forall i :: 0 <= i < |accepted| ==> accepted[i].topic in wanted
  }

  ghost predicate Addressed(b: Bus, p: Delivery) {
    forall i :: 0 <= i < |p.targets| ==>
      p.targets[i] in b.subs && p.targets[i] in b.wanted && p.ev.topic in b.wanted[p.targets[i]]
  }

  lemma {:induction false} AddToLists(topics: map<string, seq<nat>>, names: seq<string>, id: nat, t: string, x: nat)
    ensures x in At(AddTo(topics, names, id), t) ==> x in At(topics, t) || (x == id && t in names)
    ensures t in AddTo(topics, names, id) <==> t in topics || t in names
  {
    if names != [] {
      AddToLists(topics, names[..|names| - 1], id, t, x);
    }
  }

  lemma {:induction false} RemoveFirstLists(list: seq<nat>, id: nat, x: nat)
    ensures x in RemoveFirst(list, id) ==> x in list
  {
    if list != [] && list[0] != id {
      RemoveFirstLists(list[1..], id, x);
    }
  }

  lemma {:induction false} RemoveFromLists(topics: map<string, seq<nat>>, names: seq<string>, id: nat, t: string,
                                           x: nat)
    ensures t in RemoveFrom(topics, names, id) <==> t in topics
    ensures x in At(RemoveFrom(topics, names, id), t) ==> x in At(topics, t)
  {
    if names != [] {
      RemoveFromLists(topics, names[..|names| - 1], id, t, x);
      var m, n := RemoveFrom(topics, names[..|names| - 1], id), names[|names| - 1];
      if n in m {
        RemoveFirstLists(m[n], id, x);
      }
    }
  }

  /** Replacing one subscription by a healthy one with the same history of accepted events. */
  lemma Replace(b: Bus, id: nat, t: Sub)
    requires BusOk(b) && id in b.subs && SubOk(t) && t.accepted == b.subs[id].accepted
    ensures BusOk(b.(subs := b.subs[id := t]))
  {
    hide SubOk, OnlyWanted;
    var c := b.(subs := b.subs[id := t]);
    forall d | 0 <= d < |c.deliveries|
      ensures Addressed(c, c.deliveries[d])
    {
      assert Addressed(b, b.deliveries[d]);
    }
  }

  lemma SubscribeOk(b: Bus, id: nat, names: seq<string>)
    requires BusOk(b) && id !in b.subs
    ensures BusOk(Next(b, Subscribe(id, names)))
  {
    hide SubOk;
    var c := Next(b, Subscribe(id, names));
    FreshOk();
    forall t, x | t in c.topics && x in c.topics[t]
      ensures x in c.subs && x in c.wanted && t in c.wanted[x]
    {
      if !b.closed {
        AddToLists(b.topics, names, id, t, x);
        assert At(c.topics, t) == c.topics[t];
      }
    }
    forall d | 0 <= d < |c.deliveries|
      ensures Addressed(c, c.deliveries[d])
    {
      assert Addressed(b, b.deliveries[d]);
    }
  }

  lemma CancelOk(b: Bus, id: nat)
    requires BusOk(b) && id in b.subs
    ensures BusOk(Next(b, Cancel(id)))
  {
    hide SubOk, OnlyWanted;
    var c := Next(b, Cancel(id));
    forall t, x | t in c.topics && x in c.topics[t]
      ensures x in c.subs && x in c.wanted && t in c.wanted[x]
    {
      RemoveFromLists(b.topics, b.wanted[id], id, t, x);
      assert At(c.topics, t) == c.topics[t];
    }
    forall d | 0 <= d < |c.deliveries|
      ensures Addressed(c, c.deliveries[d])
    {
      assert Addressed(b, b.deliveries[d]);
    }
    if b.closed {
      forall t
        ensures t !in c.topics
      {
        RemoveFromLists(b.topics, b.wanted[id], id, t, 0);
      }
    }
  }

  lemma PublishOk(b: Bus, ev: Event)
    requires BusOk(b)
    ensures BusOk(Next(b, Publish(ev)))
  {
    hide SubOk, OnlyWanted;
    var c := Next(b, Publish(ev));
    var p := c.deliveries[|b.deliveries|];
    assert Addressed(c, p);
    forall d | 0 <= d < |c.deliveries|
      ensures Addressed(c, c.deliveries[d])
    {
      if d < |b.deliveries| {
        assert Addressed(b, b.deliveries[d]);
      }
    }
  }

  lemma DeliverOk(b: Bus, d: nat)
    requires BusOk(b) && Enabled(b, Deliver(d))
    ensures BusOk(Next(b, Deliver(d)))
  {
    hide SubOk, OnlyWanted, Enqueue;
    var p := b.deliveries[d];
    var id := p.targets[0];
    assert Addressed(b, p);
    EnqueueOk(b.subs[id], p.ev);
    var t := Enqueue(b.subs[id], p.ev);
    AcceptsWanted(b.subs[id], p.ev, b.wanted[id]);
    var c := b.(subs := b.subs[id := t], deliveries := b.deliveries[d := p.(targets := p.targets[1..])]);
    assert c == Next(b, Deliver(d));
    assert Addressed(c, c.deliveries[d]);
    forall e | 0 <= e < |c.deliveries|
      ensures Addressed(c, c.deliveries[e])
    {
      assert Addressed(b, b.deliveries[e]);
    }
    assert c.topics == b.topics && c.wanted == b.wanted && c.closed == b.closed;
  }

  lemma AcceptsWanted(s: Sub, ev: Event, wanted: seq<string>)
    requires OnlyWanted(s.accepted, wanted) && ev.topic in wanted
    ensures OnlyWanted(Enqueue(s, ev).accepted, wanted)
  {
  }

  /** Every action keeps the bus healthy. */
  lemma ActionKeepsBusOk(b: Bus, a: Action)
    requires BusOk(b) && Enabled(b, a)
    ensures BusOk(Next(b, a))
  {
    match a
    case Subscribe(id, names) => SubscribeOk(b, id, names);
    case Cancel(id) => CancelOk(b, id);
    case StopOne(id) =>
      StopOk(b.subs[id]);
      Replace(b, id, Stop(b.subs[id]));
    case Publish(ev) => PublishOk(b, ev);
    case Deliver(d) => DeliverOk(b, d);
    case Post(id) =>
      ScheduleOk(b.subs[id]);
      Replace(b, id, Schedule(b.subs[id]));
    case Drain(id) =>
      TakeOk(b.subs[id]);
      Replace(b, id, Take(b.subs[id]));
    case RunHandler(id) =>
      HandleOk(b.subs[id]);
      Replace(b, id, Handle(b.subs[id]));
    case Close => CloseOk(b);
  }

  lemma CloseOk(b: Bus)
    requires BusOk(b)
    ensures BusOk(Next(b, Close))
  {
    hide SubOk, OnlyWanted;
    var c := Next(b, Close);
    forall d | 0 <= d < |c.deliveries|
      ensures Addressed(c, c.deliveries[d])
    {
      assert Addressed(b, b.deliveries[d]);
    }
  }

  function NewBus(): Bus {
    Bus(map[], false, map[], map[], [], {})
  }

  ghost predicate Step(b: Bus, a: Action, c: Bus) {
    Enabled(b, a) && c == Next(b, a)
  }

  ghost predicate Moves(b: Bus, c: Bus) {
    exists a :: Step(b, a, c)
  }

  ghost predicate Run(run: seq<Bus>) {
    && run != [] && run[0] == NewBus()
    && forall i, j :: 0 <= i < j < |run| && j == i + 1 ==> Moves(run[i], run[j])
  }

  lemma {:induction false} RunIsOk(run: seq<Bus>, n: nat)
    requires Run(run) && n < |run|
    ensures BusOk(run[n])
  {
    hide BusOk, Enabled, Next;
    if n == 0 {
      NewIsOk();
    } else {
      RunIsOk(run, n - 1);
      assert Moves(run[n - 1], run[n]);
      var a :| Step(run[n - 1], a, run[n]);
      ActionKeepsBusOk(run[n - 1], a);
    }
  }

  lemma NewIsOk()
    ensures BusOk(NewBus())
  {
  }

  /** In every interleaving, every subscription handles a subsequence of the events it accepted, all of them of
      topics it asked for; it never holds more than 64, drops one only for 64 newer ones, and leaves none
      behind once its drains have run. */
  lemma EverySubscriptionServed(run: seq<Bus>, n: nat, id: nat)
    requires Run(run) && n < |run| && id in run[n].subs
    ensures var s := run[n].subs[id];
            && SubOk(s) && Subsequence(HandledEvents(s), s.accepted, s.handled) && |s.mailbox| <= 64
            && (forall i :: i in s.dropped ==> i + 64 < |s.accepted|)
            && (!s.stopped && s.owed == 0 && s.scheduled == 0 && s.inHand.None? ==>
                  s.mailbox == [] && forall i :: 0 <= i < |s.accepted| ==> i in s.handled || i in s.dropped)
            && id in run[n].wanted && OnlyWanted(s.accepted, run[n].wanted[id])
  {
    hide Run;
    RunIsOk(run, n);
    SubPromises(run[n].subs[id]);
    hide SubOk, OnlyWanted;
  }

  // ---- the object ------------------------------------------------------------------------------

  /** Subscription as the source's class: its critical sections, with the history as ghost state. */
  class Subscription {
    var mailbox: seq<Event>
    var stopped: bool
    ghost var history: Sub

    ghost predicate Valid()
      reads this
    {
      SubOk(history) && mailbox == history.mailbox && stopped == history.stopped
    }

    constructor ()
      ensures Valid() && history == Fresh()
    {
      mailbox := [];
      stopped := false;
      history := Fresh();
    }

    method EnqueueSection(ev: Event)
      requires Valid()
      modifies this
      ensures Valid() && history == Enqueue(old(history), ev)
      ensures stopped == old(stopped)
      ensures mailbox == if stopped then [] else if |old(mailbox)| >= 64 then old(mailbox[1..]) + [ev]
                         else old(mailbox) + [ev]
    {
      EnqueueOk(history, ev);
      if !stopped {
        if |mailbox| >= CAPACITY {
          mailbox := mailbox[1..];
        }
        mailbox := mailbox + [ev];
      }
      history := Enqueue(history, ev);
    }

    method DrainSection() returns (next: Option<Event>)
      requires Valid() && history.scheduled > 0 && history.inHand.None?
      modifies this
      ensures Valid() && history == Take(old(history))
      ensures next == if history.inHand.None? then None else Some(history.accepted[history.inHand.value])
      ensures stopped == old(stopped)
      ensures next == if old(mailbox) == [] then None else Some(old(mailbox[0]))
      ensures mailbox == if old(mailbox) == [] then [] else old(mailbox[1..])
    {
      TakeOk(history);
      ghost var before := history;
      history := Take(history);
      if stopped || mailbox == [] {
        return None;
      }
      assert before.accepted[before.head] == mailbox[0];
      next := Some(mailbox[0]);
      mailbox := mailbox[1..];
    }

    method StopSection()
      requires Valid()
      modifies this
      ensures Valid() && history == Stop(old(history)) && mailbox == [] && stopped
    {
      StopOk(history);
      stopped := true;
      mailbox := [];
      history := Stop(history);
    }
  }
}
