/** The in-memory event hub and the stream handler that drains a subscription. */
module Hubs {
  import opened Basics
  import opened Submissions
  import opened Channels
  import opened HubMachine

  class Hub {
    var subscribers: map<string, set<Channel<Event>>>
    var latest: map<string, Event>
    ghost var model: HubState<Channel<Event>>  // the state of the machine

    /** The fields and every channel handed out so far are what the machine state says. */
    ghost predicate Valid()
      reads this, model.mailboxes.Keys
    {
      && model.latest == latest
      && model.subscribers == subscribers
      && (forall ch | ch in model.mailboxes :: Mirrors(ch, model.mailboxes[ch]))
      && Inv(model)
    }

    static ghost predicate Mirrors(ch: Channel<Event>, m: Mailbox)
      reads ch
    {
      ch.capacity == CAPACITY && ch.buffer == m.buffer && ch.received == m.received && ch.closed == m.closed
    }

    constructor ()
      ensures Valid() && model == Empty()
    {
      subscribers, latest, model := map[], map[], Empty();
    }

    /** The locked part of `Subscribe`: register a new channel and take a snapshot of the latest event. */
    method Register(topic: string) returns (ch: Channel<Event>, snapshot: Option<Event>)
      requires Valid()
      modifies this
      ensures Valid() && fresh(ch)
      ensures Enabled(old(model), Action.Register(ch, topic))
      ensures model == Step(old(model), Action.Register(ch, topic))
      ensures model.mailboxes[ch].replay == snapshot
    {
      ch := new Channel<Event>(CAPACITY);
      var registered := if topic in subscribers then subscribers[topic] else {};
      subscribers := subscribers[topic := registered + {ch}];
      snapshot := if topic in latest then Some(latest[topic]) else None;
      StepKeepsInv(model, Action.Register(ch, topic));
      model := Step(model, Action.Register(ch, topic));
    }

    /** The rest of `Subscribe`, after the lock is released: `ch <- latest`. */
    method SendReplay(ch: Channel<Event>, snapshot: Event)
      requires Valid() && ch in model.mailboxes && model.mailboxes[ch].replay == Some(snapshot)
      requires |ch.buffer| < CAPACITY
      modifies this`model, ch`buffer
      ensures Valid()
      ensures Enabled(old(model), Replay(ch))
      ensures model == Step(old(model), Replay(ch))
    {
      StepKeepsInv(model, Replay(ch));
      ch.Send(snapshot);
      model := Step(model, Replay(ch));
    }

    method Publish(topic: string, event: Event)
      requires Valid()
      modifies this`latest, this`model, model.mailboxes.Keys
      ensures Valid()
      ensures model == Step(old(model), Action.Publish(topic, event))
      ensures latest == old(latest)[topic := event] && model.mailboxes.Keys == old(model.mailboxes.Keys)
    {
      StepKeepsInv(model, Action.Publish(topic, event));
      latest := latest[topic := event];
      var targets := if topic in subscribers then subscribers[topic] else {};
      assert targets == model.Subscribers(topic) && targets <= model.mailboxes.Keys;
      OfferAll(targets, event, model.mailboxes);
      model := Step(model, Action.Publish(topic, event));
    }

    /** The loop of `Publish`, in the set's own arbitrary order. */
    static method OfferAll(targets: set<Channel<Event>>, event: Event, ghost mailboxes: map<Channel<Event>, Mailbox>)
      requires targets <= mailboxes.Keys
      requires forall ch | ch in mailboxes :: Mirrors(ch, mailboxes[ch])
      requires forall ch | ch in targets :: !ch.closed
      modifies targets
      ensures forall ch | ch in mailboxes ::
                Mirrors(ch, if ch in targets then Offer(mailboxes[ch], event) else mailboxes[ch])
    {
      var rest := targets;
      while rest != {}
        invariant rest <= targets
        invariant forall ch | ch in mailboxes ::
          Mirrors(ch, if ch in targets && ch !in rest then Offer(mailboxes[ch], event) else mailboxes[ch])
      {
        var ch :| ch in rest;
        ch.TrySend(event);
        rest := rest - {ch};
      }
    }

    /** The reader takes the next event. */
    method Receive(ch: Channel<Event>) returns (event: Event)
      requires Valid() && ch in model.mailboxes && model.mailboxes[ch].replay.None? && ch.buffer != []
      modifies this`model, ch`buffer, ch`received
      ensures Valid()
      ensures Enabled(old(model), Action.Receive(ch))
      ensures model == Step(old(model), Action.Receive(ch))
      ensures [event] + ch.buffer == old(ch.buffer)
    {
      StepKeepsInv(model, Action.Receive(ch));
      event := ch.Receive();
      model := Step(model, Action.Receive(ch));
    }

    /** The function `Subscribe` returns beside the channel. Calling it twice would close a closed channel. */
    method Unsubscribe(topic: string, ch: Channel<Event>)
      requires Valid() && ch in model.mailboxes && model.mailboxes[ch].replay.None?
      requires model.mailboxes[ch].topic == topic && !ch.closed
      modifies this`subscribers, this`model, ch`closed
      ensures Valid()
      ensures Enabled(old(model), Action.Unsubscribe(ch))
      ensures model == Step(old(model), Action.Unsubscribe(ch))
      ensures ch.closed
    {
      StepKeepsInv(model, Action.Unsubscribe(ch));
      assert ch in model.Subscribers(topic);
      subscribers := subscribers[topic := subscribers[topic] - {ch}];
      ch.Close();
      model := Step(model, Action.Unsubscribe(ch));
    }

    /** `Subscribe` when no other step comes between its two parts. */
    method Subscribe(topic: string) returns (ch: Channel<Event>)
      requires Valid()
      modifies this
      ensures Valid() && fresh(ch)
      ensures ch in model.mailboxes && !ch.closed && ch.received == []
      ensures model.mailboxes[ch].topic == topic && model.mailboxes[ch].replay.None?
      ensures ch.buffer == if topic in old(latest) then [old(latest)[topic]] else []
      ensures latest == old(latest)
      ensures model.mailboxes == old(model.mailboxes)[ch := model.mailboxes[ch]]
    {
      var snapshot;
      ch, snapshot := Register(topic);
      if snapshot.Some? {
        SendReplay(ch, snapshot.value);
      }
    }
  }

  datatype DrainOutcome = Waiting | Finished | SendFailed | Cancelled

  /** `Subscribe` has returned `ch` for this topic, and it has not been given back. */
  ghost predicate Subscribed(hub: Hub, topic: string, ch: Channel<Event>)
    reads hub, hub.model.mailboxes.Keys
  {
    && hub.Valid() && ch in hub.model.mailboxes && !ch.closed
    && hub.model.mailboxes[ch].replay.None? && hub.model.mailboxes[ch].topic == topic
  }

  ghost predicate SameExcept(before: HubState<Channel<Event>>, after: HubState<Channel<Event>>, ch: Channel<Event>) {
    after.latest == before.latest && after.mailboxes - {ch} == before.mailboxes - {ch}
  }

  /** The subscription is intact except that the reader of `ch` has taken some events. */
  ghost predicate ReadAhead(hub: Hub, topic: string, ch: Channel<Event>)
    reads hub, hub.model.mailboxes.Keys
  {
    && hub.model.latest == hub.latest && hub.model.subscribers == hub.subscribers && Inv(hub.model)
    && (forall c | c in hub.model.mailboxes && c != ch :: Hub.Mirrors(c, hub.model.mailboxes[c]))
    && ch in hub.model.mailboxes && !ch.closed && ch.capacity == CAPACITY && |ch.buffer| <= CAPACITY
    && !hub.model.mailboxes[ch].closed
    && hub.model.mailboxes[ch].replay.None? && hub.model.mailboxes[ch].topic == topic
  }

  /** Brings the machine state up to date with what the reader has taken. */
  ghost method CatchUp(hub: Hub, topic: string, ch: Channel<Event>)
    requires ReadAhead(hub, topic, ch)
    modifies hub`model
    ensures Subscribed(hub, topic, ch)
    ensures SameExcept(old(hub.model), hub.model, ch) && hub.model.subscribers == old(hub.model.subscribers)
  {
    var m := hub.model.mailboxes[ch].(buffer := ch.buffer, received := ch.received);
    hub.model := hub.model.(mailboxes := hub.model.mailboxes[ch := m]);
  }

  method GiveBack(hub: Hub, topic: string, ch: Channel<Event>)
    requires Subscribed(hub, topic, ch)
    modifies hub`subscribers, hub`model, ch`closed
    ensures hub.Valid() && ch.closed && ch !in hub.model.Subscribers(topic)
    ensures SameExcept(old(hub.model), hub.model, ch)
  {
    hub.Unsubscribe(topic, ch);
  }

  /**
    What the outside does to a stream: `sendFails(i)` tells whether the transport refuses the i-th event,
    `cancelled(i)` whether the select notices, before it receives the i-th event, that the context is done.
   */
  datatype Client = Client(sendFails: nat -> bool, cancelled: nat -> bool)

  /** How the handler stands after sending these events: the last one decides, then the context. */
  function Outcome(sent: seq<Event>, client: Client): DrainOutcome {
    if sent != [] && client.sendFails(|sent| - 1) then SendFailed
    else if sent != [] && sent[|sent| - 1].final then Finished
    else if client.cancelled(|sent|) then Cancelled
    else Waiting
  }

  /** Everything before the last event was sent, was not final, and the context was not noticed to be done. */
  ghost predicate KeptGoing(sent: seq<Event>, client: Client) {
    && (forall i | 0 <= i < |sent| - 1 :: !sent[i].final && !client.sendFails(i))
    && (forall i | 0 <= i < |sent| :: !client.cancelled(i))
  }

  /** The loop of `StreamSubmission` up to the moment it has to wait, with its deferred unsubscribe. */
  method Drain(hub: Hub, topic: string, ch: Channel<Event>, client: Client)
    returns (sent: seq<Event>, outcome: DrainOutcome)
    requires Subscribed(hub, topic, ch)
    modifies hub, ch
    ensures sent + ch.buffer == old(ch.buffer) && ch.received == old(ch.received) + sent
    ensures KeptGoing(sent, client) && outcome == Outcome(sent, client)
    ensures outcome.Waiting? ==> ch.buffer == [] && Subscribed(hub, topic, ch)
    ensures !outcome.Waiting? ==> hub.Valid() && ch.closed && ch !in hub.model.Subscribers(topic)
    ensures SameExcept(old(hub.model), hub.model, ch)
  {
    sent, outcome := ReadUntil(ch, client);
    CatchUp(hub, topic, ch);
    if !outcome.Waiting? {
      GiveBack(hub, topic, ch);
    }
  }

  /** Receive and send until the context is done, a send is refused, a final event is sent, or nothing is left. */
  method ReadUntil(ch: Channel<Event>, client: Client) returns (sent: seq<Event>, outcome: DrainOutcome)
    modifies ch`buffer, ch`received
    ensures sent + ch.buffer == old(ch.buffer) && ch.received == old(ch.received) + sent
    ensures KeptGoing(sent, client) && outcome == Outcome(sent, client)
    ensures outcome.Waiting? ==> ch.buffer == []
  {
    sent := [];
    outcome := if client.cancelled(0) then Cancelled else Waiting;
    while outcome.Waiting? && ch.buffer != []
      invariant sent + ch.buffer == old(ch.buffer) && ch.received == old(ch.received) + sent
      invariant KeptGoing(sent, client) && outcome == Outcome(sent, client)
      decreases |ch.buffer|
    {
      var event := ch.Receive();
      sent := sent + [event];
      if client.sendFails(|sent| - 1) {
        outcome := SendFailed;
      } else if event.final {
        outcome := Finished;
      } else if client.cancelled(|sent|) {
        outcome := Cancelled;
      }
    }
  }

  /** `StreamSubmission` when no other step comes in between: it can send the latest event, and then has to wait for more. */
  method StreamSubmission(hub: Hub, topic: string, client: Client)
    returns (ch: Channel<Event>, sent: seq<Event>, outcome: DrainOutcome)
    requires hub.Valid()
    modifies hub
    ensures hub.Valid() && fresh(ch) && hub.latest == old(hub.latest)
    ensures sent == if topic in old(hub.latest) && !client.cancelled(0) then [old(hub.latest)[topic]] else []
    ensures outcome == Outcome(sent, client)
    ensures outcome.Waiting? <==> Subscribed(hub, topic, ch)
    ensures hub.model.mailboxes - {ch} == old(hub.model.mailboxes)
  {
    ch := hub.Subscribe(topic);
    assert hub.model.mailboxes - {ch} == old(hub.model.mailboxes);
    sent, outcome := Drain(hub, topic, ch, client);
  }
}
