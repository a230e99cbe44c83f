/**
  The event hub as a state machine over its atomic steps.

  `Subscribe` is two steps: it registers the channel and takes a snapshot of the latest event under
  the lock, and sends that snapshot only after the lock is released. Other steps may come between.
  `C` names the channels.
 */
module HubMachine {
  import opened Basics
  import opened Submissions

  const CAPACITY: nat := 8

  /** A subscriber's channel, with what its reader has already taken and the replay still owed to it. */
  datatype Mailbox = Mailbox(
    topic: string,
    buffer: seq<Event>,
    received: seq<Event>,
    replay: Option<Event>,
    closed: bool)
  {
    function Arrivals(): seq<Event> {
      received + buffer
    }
  }

  datatype HubState<!C(==)> = HubState(
    latest: map<string, Event>,
    subscribers: map<string, set<C>>,
    mailboxes: map<C, Mailbox>)
  {
    function Subscribers(topic: string): set<C> {
      if topic in subscribers then subscribers[topic] else {}
    }

    function Latest(topic: string): Option<Event> {
      if topic in latest then Some(latest[topic]) else None
    }
  }

  datatype Action<!C(==)> =
    | Register(c: C, topic: string)
    | Replay(c: C)
    | Publish(topic: string, event: Event)
    | Receive(c: C)
    | Unsubscribe(c: C)

  function Empty<C(==)>(): HubState<C> {
    HubState(map[], map[], map[])
  }

  /**
    When the runtime can take a step. Only the code that called `Subscribe` holds the channel and
    the unsubscribe function, so both wait until `Subscribe` has returned.
   */
  predicate Enabled<C(==)>(s: HubState<C>, a: Action<C>) {
    match a
    case Register(c, _) => c !in s.mailboxes
    case Replay(c) => c in s.mailboxes && s.mailboxes[c].replay.Some? && |s.mailboxes[c].buffer| < CAPACITY
    case Publish(_, _) => true
    case Receive(c) => c in s.mailboxes && s.mailboxes[c].replay.None? && s.mailboxes[c].buffer != []
    case Unsubscribe(c) => c in s.mailboxes && s.mailboxes[c].replay.None?
  }

  /** A send on a closed channel, or a second close. */
  ghost predicate Panics<C>(s: HubState<C>, a: Action<C>) {
    match a
    case Replay(c) => c in s.mailboxes && s.mailboxes[c].closed
    case Publish(topic, _) => exists c | c in s.Subscribers(topic) :: c in s.mailboxes && s.mailboxes[c].closed
    case Unsubscribe(c) => c in s.mailboxes && s.mailboxes[c].closed
    case _ => false
  }

  /** A non-blocking send: a full channel drops the event. */
  function Offer(m: Mailbox, e: Event): Mailbox {
    if |m.buffer| < CAPACITY then m.(buffer := m.buffer + [e]) else m
  }

  function Step<C(==)>(s: HubState<C>, a: Action<C>): HubState<C>
    requires Enabled(s, a)
  {
    match a
    case Register(c, topic) =>
      HubState(
        s.latest,
        s.subscribers[topic := s.Subscribers(topic) + {c}],
        s.mailboxes[c := Mailbox(topic, [], [], s.Latest(topic), false)])
    case Replay(c) =>
      var m := s.mailboxes[c];
      s.(mailboxes := s.mailboxes[c := m.(buffer := m.buffer + [m.replay.value], replay := None)])
    case Publish(topic, e) =>
      HubState(
        s.latest[topic := e],
        s.subscribers,
        map c | c in s.mailboxes :: if c in s.Subscribers(topic) then Offer(s.mailboxes[c], e) else s.mailboxes[c])
    case Receive(c) =>
      var m := s.mailboxes[c];
      s.(mailboxes := s.mailboxes[c := m.(buffer := m.buffer[1..], received := m.received + [m.buffer[0]])])
    case Unsubscribe(c) =>
      var m := s.mailboxes[c];
      s.(subscribers := s.subscribers[m.topic := s.Subscribers(m.topic) - {c}],
         mailboxes := s.mailboxes[c := m.(closed := true)])
  }

  // ---------- the state invariant ----------

  /** Exactly the open channels are registered, each under its own topic, and no buffer is over full. */
  ghost predicate Inv<C>(s: HubState<C>) {
    && (forall topic, c | topic in s.subscribers && c in s.subscribers[topic] ::
          c in s.mailboxes && s.mailboxes[c].topic == topic && !s.mailboxes[c].closed)
    && (forall c | c in s.mailboxes && !s.mailboxes[c].closed :: c in s.Subscribers(s.mailboxes[c].topic))
    && (forall c | c in s.mailboxes :: |s.mailboxes[c].buffer| <= CAPACITY)
    && (forall c | c in s.mailboxes && s.mailboxes[c].replay.Some? ::
          !s.mailboxes[c].closed && s.mailboxes[c].received == [])
  }

  lemma StepKeepsInv<C>(s: HubState<C>, a: Action<C>)
    requires Inv(s) && Enabled(s, a)
    ensures Inv(Step(s, a))
  {
    var t := Step(s, a);
    forall topic, c | topic in t.subscribers && c in t.subscribers[topic]
      ensures c in t.mailboxes && t.mailboxes[c].topic == topic && !t.mailboxes[c].closed
    {
      if topic in s.subscribers && c in s.subscribers[topic] {
        assert c in s.mailboxes;
      }
    }
    forall c | c in t.mailboxes && !t.mailboxes[c].closed
      ensures c in t.Subscribers(t.mailboxes[c].topic)
    {
      assert c in s.mailboxes ==> !s.mailboxes[c].closed && s.mailboxes[c].topic == t.mailboxes[c].topic;
    }
  }

  /** Under the invariant the only step that can panic is a repeated unsubscribe. */
  lemma OnlyRepeatedUnsubscribePanics<C>(s: HubState<C>, a: Action<C>)
    requires Inv(s) && Enabled(s, a)
    ensures Panics(s, a) <==> a.Unsubscribe? && s.mailboxes[a.c].closed
  {
    if a.Publish? {
      forall c | c in s.Subscribers(a.topic) ensures c in s.mailboxes && !s.mailboxes[c].closed {
      }
    }
  }

  // ---------- runs ----------

  /** A run: the actions taken and the state before and after each of them, starting from the empty hub. */
  datatype Run<!C> = Run(trace: seq<Action<C>>, states: seq<HubState<C>>) {

    ghost predicate Valid() {
      && |states| == |trace| + 1
      && states[0] == Empty()
      && forall i {:trigger Moves(i)} | 0 <= i < |trace| :: Moves(i)
    }

    ghost predicate Moves(i: int)
      requires 0 <= i < |trace| && |states| == |trace| + 1
    {
      Enabled(states[i], trace[i]) && states[i + 1] == Step(states[i], trace[i])
    }

    /** Channel `c` is created at step `r`. */
    ghost predicate RegisteredAt(c: C, r: nat) {
      r < |trace| && trace[r].Register? && trace[r].c == c
    }

    /** Between `r` and `p` nobody unsubscribes `c`. */
    ghost predicate KeptUntil(c: C, r: nat, p: nat)
      requires p <= |trace|
    {
      forall q | r < q < p :: trace[q] != Unsubscribe(c)
    }

    ghost predicate ReplayedBefore(c: C, r: nat, n: nat)
      requires n <= |trace|
    {
      exists p :: r < p < n && trace[p] == Replay(c)
    }

    /** Each unsubscribe function is called at most once. */
    ghost predicate UnsubscribesOnce() {
      forall i, j | 0 <= i < j < |trace| && trace[i].Unsubscribe? :: trace[i] != trace[j]
    }

    ghost predicate NeverPanics()
      requires |states| == |trace| + 1
    {
      forall p: nat | p < |trace| :: !Panics(states[p], trace[p])
    }

    /** The last event published on a topic in the first `n` steps. */
    ghost function LatestBefore(topic: string, n: nat): Option<Event>
      requires n <= |trace|
    {
      if n == 0 then None
      else if trace[n - 1].Publish? && trace[n - 1].topic == topic then Some(trace[n - 1].event)
      else LatestBefore(topic, n - 1)
    }

    /** The number of events published on a topic strictly between steps `r` and `n`. */
    ghost function PublishedSince(topic: string, r: nat, n: nat): nat
      requires n <= |trace|
      decreases n
    {
      if n <= r + 1 then 0
      else PublishedSince(topic, r, n - 1) + if trace[n - 1].Publish? && trace[n - 1].topic == topic then 1 else 0
    }

    /** The number of events waiting in the channel just before step `p`. */
    ghost function Waiting(c: C, p: nat): nat
      requires p < |states|
    {
      if c in states[p].mailboxes then |states[p].mailboxes[c].buffer| else 0
    }

    /**
      Step `p` owes the subscriber registered at `r` an event: it is a publish on its topic while it is
      subscribed, or the replay of its snapshot.
     */
    ghost predicate Owes(c: C, r: nat, p: nat)
      requires RegisteredAt(c, r)
    {
      && r < p < |trace|
      && ((trace[p].Publish? && trace[p].topic == trace[r].topic && KeptUntil(c, r, p)) || trace[p] == Replay(c))
    }

    /** The event owed: the published one, or the latest one published before the registration. */
    ghost function OwedEvent(c: C, r: nat, p: nat): Option<Event>
      requires RegisteredAt(c, r) && Owes(c, r, p)
    {
      if trace[p].Publish? then Some(trace[p].event) else LatestBefore(trace[r].topic, r)
    }

    /** A published event is lost only when eight events are waiting at that moment. */
    ghost predicate Arrives(c: C, r: nat, p: nat)
      requires |states| == |trace| + 1 && RegisteredAt(c, r)
    {
      Owes(c, r, p) && (trace[p].Publish? ==> Waiting(c, p) < CAPACITY)
    }

    /** `ps` lists in order exactly the steps before `n` whose event arrives. */
    ghost predicate ArrivalSteps(c: C, r: nat, n: nat, ps: seq<nat>)
      requires |states| == |trace| + 1 && RegisteredAt(c, r)
    {
      && (forall i, j | 0 <= i < j < |ps| :: ps[i] < ps[j])
      && (forall i | 0 <= i < |ps| :: ps[i] < n && Arrives(c, r, ps[i]))
      && (forall p: nat | p < n && Arrives(c, r, p) :: p in ps)
    }

    /** What has arrived in channel `c` is the events owed by the steps `ps`, one each and in that order. */
    ghost predicate Explained(c: C, r: nat, n: nat, ps: seq<nat>)
      requires |states| == |trace| + 1 && RegisteredAt(c, r) && n <= |trace|
    {
      && ArrivalSteps(c, r, n, ps)
      && c in states[n].mailboxes
      && var arrived := states[n].mailboxes[c].Arrivals();
         |arrived| == |ps| && forall i | 0 <= i < |ps| :: OwedEvent(c, r, ps[i]) == Some(arrived[i])
    }
  }

  lemma {:induction false} InvAt<C>(e: Run<C>, p: nat)
    requires e.Valid() && p <= |e.trace|
    ensures Inv(e.states[p])
  {
    if p > 0 {
      InvAt(e, p - 1);
      assert e.Moves(p - 1);
      StepKeepsInv(e.states[p - 1], e.trace[p - 1]);
    }
  }

  lemma EnabledAt<C>(e: Run<C>, p: nat)
    requires e.Valid() && p < |e.trace|
    ensures Enabled(e.states[p], e.trace[p])
  {
    assert e.Moves(p);
  }

  /** A channel comes into being by its registration, with the snapshot to replay, and never goes away. */
  lemma Birth<C>(e: Run<C>, c: C, p: nat)
    requires e.Valid() && p < |e.trace|
    ensures c in e.states[p + 1].mailboxes <==> c in e.states[p].mailboxes || e.RegisteredAt(c, p)
    ensures e.RegisteredAt(c, p) ==>
              && c !in e.states[p].mailboxes
              && e.states[p + 1].mailboxes[c]
              == Mailbox(e.trace[p].topic, [], [], e.states[p].Latest(e.trace[p].topic), false)
  {
    assert e.Moves(p);
  }

  lemma MailboxStep<C>(e: Run<C>, c: C, p: nat)
    requires e.Valid() && p < |e.trace| && c in e.states[p].mailboxes
    ensures c in e.states[p + 1].mailboxes
    ensures MailboxChange(e.states[p].mailboxes[c], e.trace[p], c, e.states[p + 1].mailboxes[c])
  {
    assert e.Moves(p);
    InvAt(e, p);
    StepChangesMailbox(e.states[p], e.trace[p], c);
  }

  /** What one step does to one existing channel. */
  lemma StepChangesMailbox<C>(s: HubState<C>, a: Action<C>, c: C)
    requires Inv(s) && Enabled(s, a) && c in s.mailboxes
    ensures c in Step(s, a).mailboxes
    ensures MailboxChange(s.mailboxes[c], a, c, Step(s, a).mailboxes[c])
  {
    if a.Publish? {
      assert c in s.Subscribers(a.topic) <==> a.topic == s.mailboxes[c].topic && !s.mailboxes[c].closed;
    }
  }

  /** Channels come into being only by registering, and keep their topic. */
  lemma StepRegisters<C>(s: HubState<C>, a: Action<C>, c: C)
    requires Enabled(s, a) && c in Step(s, a).mailboxes
    ensures if c in s.mailboxes then Step(s, a).mailboxes[c].topic == s.mailboxes[c].topic
            else a == Register(c, Step(s, a).mailboxes[c].topic)
  {
  }

  ghost predicate MailboxChange<C>(m: Mailbox, a: Action<C>, c: C, m': Mailbox) {
    if a.Publish? && a.topic == m.topic && !m.closed then
      m' == Offer(m, a.event)
    else if a == Replay(c) then
      m.replay.Some? && m' == m.(buffer := m.buffer + [m.replay.value], replay := None)
    else if a == Receive(c) then
      m.replay.None? && m.buffer != [] && m' == m.(buffer := m.buffer[1..], received := m.received + [m.buffer[0]])
    else if a == Unsubscribe(c) then
      m.replay.None? && m' == m.(closed := true)
    else
      m' == m
  }

  /** A channel exists from its registration on, keeps its topic, and is closed iff it has been unsubscribed. */
  lemma {:induction false} MailboxAt<C>(e: Run<C>, c: C, r: nat, p: nat)
    requires e.Valid() && e.RegisteredAt(c, r) && r < p <= |e.trace|
    ensures c in e.states[p].mailboxes && e.states[p].mailboxes[c].topic == e.trace[r].topic
    ensures e.states[p].mailboxes[c].closed <==> !e.KeptUntil(c, r, p)
  {
    if p == r + 1 {
      Birth(e, c, r);
    } else {
      MailboxAt(e, c, r, p - 1);
      MailboxStep(e, c, p - 1);
    }
  }

  lemma {:induction false} FindRegistration<C>(e: Run<C>, c: C, p: nat) returns (r: nat)
    requires e.Valid() && p <= |e.trace| && c in e.states[p].mailboxes
    ensures r < p && e.RegisteredAt(c, r)
    ensures forall q: nat | q <= r :: c !in e.states[q].mailboxes
  {
    Birth(e, c, p - 1);
    if c in e.states[p - 1].mailboxes {
      r := FindRegistration(e, c, p - 1);
    } else {
      r := p - 1;
      forall q: nat | q <= r ensures c !in e.states[q].mailboxes {
        if c in e.states[q].mailboxes {
          StaysRegistered(e, c, q, r);
        }
      }
    }
  }

  lemma {:induction false} StaysRegistered<C>(e: Run<C>, c: C, p: nat, q: nat)
    requires e.Valid() && p <= q <= |e.trace| && c in e.states[p].mailboxes
    ensures c in e.states[q].mailboxes
  {
    if p < q {
      StaysRegistered(e, c, p, q - 1);
      Birth(e, c, q - 1);
    }
  }

  /** No step of a run panics exactly when every unsubscribe function is called at most once. */
  lemma NoPanicIffUnsubscribesOnce<C>(e: Run<C>)
    requires e.Valid()
    ensures e.NeverPanics() <==> e.UnsubscribesOnce()
  {
    forall p: nat | p < |e.trace|
      ensures Panics(e.states[p], e.trace[p])
         <==> e.trace[p].Unsubscribe? && exists q: nat :: q < p && e.trace[q] == e.trace[p]
    {
      PanicAt(e, p);
    }
  }

  lemma PanicAt<C>(e: Run<C>, p: nat)
    requires e.Valid() && p < |e.trace|
    ensures Panics(e.states[p], e.trace[p])
       <==> e.trace[p].Unsubscribe? && exists q: nat :: q < p && e.trace[q] == e.trace[p]
  {
    InvAt(e, p);
    EnabledAt(e, p);
    OnlyRepeatedUnsubscribePanics(e.states[p], e.trace[p]);
    if e.trace[p].Unsubscribe? {
      var c := e.trace[p].c;
      var r := FindRegistration(e, c, p);
      MailboxAt(e, c, r, p);
      forall q: nat | q < p && e.trace[q] == e.trace[p] ensures r < q {
        EnabledAt(e, q);
      }
    }
  }

  // ---------- accounting ----------

  lemma {:induction false} LatestAt<C>(e: Run<C>, topic: string, p: nat)
    requires e.Valid() && p <= |e.trace|
    ensures e.states[p].Latest(topic) == e.LatestBefore(topic, p)
  {
    if p > 0 {
      assert e.Moves(p - 1);
      LatestAt(e, topic, p - 1);
    }
  }

  /** Until it is sent, the pending replay is the snapshot taken at the registration. */
  lemma {:induction false} SnapshotKept<C>(e: Run<C>, c: C, r: nat, n: nat)
    requires e.Valid() && e.RegisteredAt(c, r) && r < n <= |e.trace|
    ensures c in e.states[n].mailboxes
    ensures e.states[n].mailboxes[c].replay
         == if e.ReplayedBefore(c, r, n) then None else e.LatestBefore(e.trace[r].topic, r)
  {
    if n == r + 1 {
      Birth(e, c, r);
      LatestAt(e, e.trace[r].topic, r);
    } else {
      SnapshotKept(e, c, r, n - 1);
      MailboxStep(e, c, n - 1);
      assert e.ReplayedBefore(c, r, n) <==> e.ReplayedBefore(c, r, n - 1) || e.trace[n - 1] == Replay(c);
    }
  }

  /** Step `n` adds the owed event if it arrives and nothing otherwise. */
  lemma ArrivalStep<C>(e: Run<C>, c: C, r: nat, n: nat)
    requires e.Valid() && e.RegisteredAt(c, r) && r < n < |e.trace|
    ensures c in e.states[n].mailboxes && c in e.states[n + 1].mailboxes
    ensures e.Arrives(c, r, n) ==>
              && e.OwedEvent(c, r, n).Some?
              && e.states[n + 1].mailboxes[c].Arrivals()
              == e.states[n].mailboxes[c].Arrivals() + [e.OwedEvent(c, r, n).value]
    ensures !e.Arrives(c, r, n) ==> e.states[n + 1].mailboxes[c].Arrivals() == e.states[n].mailboxes[c].Arrivals()
  {
    MailboxAt(e, c, r, n);
    SnapshotKept(e, c, r, n);
    MailboxStep(e, c, n);
    var m := e.states[n].mailboxes[c];
    var m' := e.states[n + 1].mailboxes[c];
    if e.Arrives(c, r, n) {
      assert m.received + (m.buffer + [e.OwedEvent(c, r, n).value]) == m.received + m.buffer + [e.OwedEvent(c, r, n).value];
    } else if e.trace[n] == Receive(c) {
      assert m.received + [m.buffer[0]] + m.buffer[1..] == m.received + m.buffer;
    }
  }

  /**
    Accounting: at every moment of every run, what a subscriber has taken plus what is waiting for it
    is exactly the owed events in the order of the steps that sent them, each once, without those
    published while eight events were waiting.
   */
  lemma {:induction false} Accounting<C>(e: Run<C>, c: C, r: nat, n: nat) returns (ps: seq<nat>)
    requires e.Valid() && e.RegisteredAt(c, r) && r < n <= |e.trace|
    ensures e.Explained(c, r, n, ps)
  {
    if n == r + 1 {
      Birth(e, c, r);
      ps := [];
    } else {
      ps := Accounting(e, c, r, n - 1);
      ps := NextAccounting(e, c, r, n - 1, ps);
    }
  }

  lemma NextAccounting<C>(e: Run<C>, c: C, r: nat, n: nat, ps: seq<nat>) returns (qs: seq<nat>)
    requires e.Valid() && e.RegisteredAt(c, r) && r < n < |e.trace|
    requires e.Explained(c, r, n, ps)
    ensures e.Explained(c, r, n + 1, qs)
  {
    ArrivalStep(e, c, r, n);
    NextArrivalSteps(e, c, r, n, ps);
    qs := if e.Arrives(c, r, n) then ps + [n] else ps;
    var before, after := e.states[n].mailboxes[c].Arrivals(), e.states[n + 1].mailboxes[c].Arrivals();
    forall i | 0 <= i < |qs| ensures e.OwedEvent(c, r, qs[i]) == Some(after[i]) {
      if i < |ps| {
        assert qs[i] == ps[i] && after[i] == before[i];
      }
    }
  }

  lemma NextArrivalSteps<C>(e: Run<C>, c: C, r: nat, n: nat, ps: seq<nat>)
    requires e.Valid() && e.RegisteredAt(c, r) && r < n < |e.trace|
    requires e.ArrivalSteps(c, r, n, ps)
    ensures e.ArrivalSteps(c, r, n + 1, if e.Arrives(c, r, n) then ps + [n] else ps)
  {
    var qs := if e.Arrives(c, r, n) then ps + [n] else ps;
    forall p: nat | p < n + 1 && e.Arrives(c, r, p) ensures p in qs {
      if p == n {
        assert qs[|ps|] == n;
      } else {
        assert p in ps;
      }
    }
    forall i | 0 <= i < |qs| ensures qs[i] < n + 1 && e.Arrives(c, r, qs[i]) {
      if i < |ps| {
        assert qs[i] == ps[i];
      }
    }
  }

  /** A subscriber is sent its snapshot at most once, and has been sent it as soon as `Subscribe` has returned. */
  lemma SnapshotSentOnce<C>(e: Run<C>, c: C, r: nat, n: nat)
    requires e.Valid() && e.RegisteredAt(c, r) && r < n <= |e.trace|
    ensures forall p, q | r < p < q < n && e.trace[p] == Replay(c) :: e.trace[q] != Replay(c)
    ensures c in e.states[n].mailboxes
    ensures e.states[n].mailboxes[c].replay.None?
       <==> e.LatestBefore(e.trace[r].topic, r).None? || e.ReplayedBefore(c, r, n)
  {
    SnapshotKept(e, c, r, n);
    forall p, q | r < p < q < n && e.trace[p] == Replay(c) ensures e.trace[q] != Replay(c) {
      SnapshotKept(e, c, r, q);
      EnabledAt(e, q);
      assert e.ReplayedBefore(c, r, q);
    }
  }

  // ---------- nothing comes from nowhere ----------

  ghost predicate PublishedBefore<C>(e: Run<C>, topic: string, event: Event, n: nat) {
    exists p: nat :: p < n && p < |e.trace| && e.trace[p] == Publish(topic, event)
  }

  lemma {:induction false} LatestWasPublished<C>(e: Run<C>, topic: string, n: nat)
    requires n <= |e.trace| && e.LatestBefore(topic, n).Some?
    ensures PublishedBefore(e, topic, e.LatestBefore(topic, n).value, n)
  {
    if e.trace[n - 1].Publish? && e.trace[n - 1].topic == topic {
      assert e.trace[n - 1] == Publish(topic, e.LatestBefore(topic, n).value);
    } else {
      LatestWasPublished(e, topic, n - 1);
      assert PublishedBefore(e, topic, e.LatestBefore(topic, n).value, n - 1);
    }
  }

  /** Every event a subscriber gets was published on its id before. */
  lemma ArrivalWasPublished<C>(e: Run<C>, c: C, r: nat, n: nat, event: Event)
    requires e.Valid() && e.RegisteredAt(c, r) && r < n <= |e.trace|
    requires c in e.states[n].mailboxes && event in e.states[n].mailboxes[c].Arrivals()
    ensures PublishedBefore(e, e.trace[r].topic, event, n)
  {
    var ps := Accounting(e, c, r, n);
    var i :| 0 <= i < |ps| && e.states[n].mailboxes[c].Arrivals()[i] == event;
    assert e.OwedEvent(c, r, ps[i]) == Some(event) && ps[i] < n;
    if e.trace[ps[i]].Publish? {
      assert e.trace[ps[i]] == Publish(e.trace[r].topic, event);
    } else {
      LatestWasPublished(e, e.trace[r].topic, r);
      assert PublishedBefore(e, e.trace[r].topic, event, r);
    }
  }

  // ---------- the replay can wait for ever ----------

  /**
    While the replay is pending nobody reads the channel, so it holds the first eight events published
    since the registration: the replay can be sent iff fewer than eight were.
   */
  lemma {:induction false} ReplayEnabledIff<C>(e: Run<C>, c: C, r: nat, n: nat)
    requires e.Valid() && e.RegisteredAt(c, r) && r < n <= |e.trace|
    requires c in e.states[n].mailboxes && e.states[n].mailboxes[c].replay.Some?
    ensures e.states[n].mailboxes[c].received == []
    ensures var since := e.PublishedSince(e.trace[r].topic, r, n);
            |e.states[n].mailboxes[c].buffer| == if since < 8 then since else 8
    ensures Enabled(e.states[n], Replay(c)) <==> e.PublishedSince(e.trace[r].topic, r, n) < 8
  {
    if n == r + 1 {
      Birth(e, c, r);
    } else {
      MailboxAt(e, c, r, n - 1);
      InvAt(e, n);
      MailboxStep(e, c, n - 1);
      ReplayEnabledIff(e, c, r, n - 1);
    }
  }

  /**
    Once eight events have been published before the replay is sent, `Subscribe` never returns: in no
    continuation of the run is the replay sent, nor anything received from that channel.
   */
  lemma {:induction false} StuckForEver<C>(e: Run<C>, c: C, r: nat, n: nat, later: nat)
    requires e.Valid() && e.RegisteredAt(c, r) && r < n <= later <= |e.trace|
    requires c in e.states[n].mailboxes && e.states[n].mailboxes[c].replay.Some?
    requires e.PublishedSince(e.trace[r].topic, r, n) >= 8
    ensures c in e.states[later].mailboxes
    ensures e.states[later].mailboxes[c] == e.states[n].mailboxes[c]
    ensures forall p | n <= p < later :: e.trace[p] !in {Replay(c), Receive(c), Unsubscribe(c)}
  {
    if later > n {
      StuckForEver(e, c, r, n, later - 1);
      ReplayEnabledIff(e, c, r, n);
      MailboxStep(e, c, later - 1);
      EnabledAt(e, later - 1);
    }
  }

  ghost function Extended<C>(e: Run<C>, a: Action<C>): Run<C>
    requires |e.states| == |e.trace| + 1 && Enabled(e.states[|e.trace|], a)
  {
    Run(e.trace + [a], e.states + [Step(e.states[|e.trace|], a)])
  }

  lemma ExtendedIsValid<C>(e: Run<C>, a: Action<C>)
    requires e.Valid() && Enabled(e.states[|e.trace|], a)
    ensures Extended(e, a).Valid()
  {
    var f := Extended(e, a);
    forall i | 0 <= i < |f.trace| ensures f.Moves(i) {
      if i < |e.trace| {
        assert e.Moves(i);
        assert f.trace[i] == e.trace[i] && f.states[i] == e.states[i] && f.states[i + 1] == e.states[i + 1];
      }
    }
  }

  lemma {:induction false} SameCount<C>(e: Run<C>, f: Run<C>, topic: string, r: nat, n: nat)
    requires n <= |e.trace| <= |f.trace| && f.trace[..|e.trace|] == e.trace
    ensures e.PublishedSince(topic, r, n) == f.PublishedSince(topic, r, n)
    decreases n
  {
    if n > r + 1 {
      assert f.trace[n - 1] == e.trace[n - 1];
      SameCount(e, f, topic, r, n - 1);
    }
  }

  /** A replay is pending for channel `c`, registered at step `r`, after `n` publishes since. */
  ghost predicate Pending<C>(e: Run<C>, c: C, r: nat, n: nat) {
    && e.Valid() && e.RegisteredAt(c, r)
    && c in e.states[|e.trace|].mailboxes && e.states[|e.trace|].mailboxes[c].replay.Some?
    && e.PublishedSince(e.trace[r].topic, r, |e.trace|) == n
  }

  lemma PublishWhilePending<C>(e: Run<C>, c: C, r: nat, n: nat, event: Event) returns (f: Run<C>)
    requires Pending(e, c, r, n)
    ensures Pending(f, c, r, n + 1) && f.trace == e.trace + [Publish(e.trace[r].topic, event)]
  {
    var a: Action<C> := Publish(e.trace[r].topic, event);
    f := Extended(e, a);
    ExtendedIsValid(e, a);
    InvAt(e, |e.trace|);
    StepChangesMailbox(e.states[|e.trace|], a, c);
    assert f.trace[..|e.trace|] == e.trace && f.trace[r] == e.trace[r];
    SameCount(e, f, e.trace[r].topic, r, |e.trace|);
  }

  /** From any run with a pending replay, publishing often enough leads to the state of `StuckForEver`. */
  lemma {:induction false} PublishingGetsStuck<C>(e: Run<C>, c: C, r: nat, n: nat, event: Event) returns (f: Run<C>)
    requires Pending(e, c, r, n)
    ensures e.trace <= f.trace
    ensures exists m :: m >= 8 && Pending(f, c, r, m)
    decreases CAPACITY - n
  {
    f := e;
    if n < CAPACITY {
      var next := PublishWhilePending(e, c, r, n, event);
      f := PublishingGetsStuck(next, c, r, n + 1, event);
    }
  }

  /** Such runs exist: an event, a registration for its topic, and eight more events. */
  lemma SubscribeCanHang<C>(c: C, topic: string, event: Event) returns (f: Run<C>)
    ensures [Publish(topic, event), Register(c, topic)] <= f.trace
    ensures exists m :: m >= 8 && Pending(f, c, 1, m)
  {
    var start: Run<C> := Run([], [Empty()]);
    var published := Extended(start, Publish(topic, event));
    ExtendedIsValid(start, Publish(topic, event));
    var registered := Extended(published, Register(c, topic));
    ExtendedIsValid(published, Register(c, topic));
    assert registered.trace == [Publish(topic, event), Register(c, topic)];
    assert Pending(registered, c, 1, 0);
    f := PublishingGetsStuck(registered, c, 1, 0, event);
  }
}
