/**
  One submission from creation to verdict, with any number of streaming clients, in every interleaving.

  The processes are the handler that creates the submission, the judge provider, the dispatcher that
  reports its results, and any number of streams that subscribe when they like and keep draining.
  The hypotheses are that enqueueing and every report succeed, that there is one dispatch and that
  nobody cancels. Other submissions may publish and be streamed at the same time.
 */
module EndToEnd {
  import opened Basics
  import opened Submissions
  import opened HubMachine
  import opened GoJudge
  import Dispatcher
  import Text

  const PIPE_CAPACITY: nat := 4

  datatype Creator = Start | Saved | Announced | Enqueued

  /** `Holding` a result taken from the channel, then `Stored` its status, then broadcast it. */
  datatype Reporter = Idle | Holding(result: JudgeResult) | Stored(result: JudgeResult) | Done

  datatype World<!C> = World(
    creator: Creator,
    emitted: nat,             // results the provider has sent
    pipe: seq<JudgeResult>,   // results in its channel
    reporter: Reporter,
    status: Option<Status>,   // the stored row
    published: nat,           // events broadcast for this submission
    hub: HubState<C>,
    joined: map<C, nat>)      // how many events had been broadcast when a channel subscribed

  datatype Move<!C> =
    | Save
    | Announce
    | Enqueue
    | Emit
    | Take
    | Update
    | Report
    | HubMove(action: Action<C>)

  ghost function Initial<C>(): World<C> {
    World(Start, 0, [], Idle, None, 0, Empty(), map[])
  }

  ghost predicate SawFinal(events: seq<Event>) {
    exists i :: 0 <= i < |events| && events[i].final
  }

  /** What the stream handlers do: read until a final event, then unsubscribe, once. */
  ghost predicate StreamMove<C>(id: string, hub: HubState<C>, a: Action<C>) {
    match a
    case Publish(topic, _) => topic != id
    case Receive(c) => c in hub.mailboxes && !SawFinal(hub.mailboxes[c].received)
    case Unsubscribe(c) => c in hub.mailboxes && SawFinal(hub.mailboxes[c].received) && !hub.mailboxes[c].closed
    case _ => true
  }

  ghost predicate CanMove<C>(id: string, results: seq<JudgeResult>, w: World<C>, m: Move<C>) {
    match m
    case Save => w.creator.Start?
    case Announce => w.creator.Saved?
    case Enqueue => w.creator.Announced?
    case Emit => w.creator.Enqueued? && w.emitted < |results| && |w.pipe| < PIPE_CAPACITY
    case Take => w.reporter.Idle? && w.pipe != []
    case Update => w.reporter.Holding?
    case Report => w.reporter.Stored?
    case HubMove(a) => Enabled(w.hub, a) && StreamMove(id, w.hub, a)
  }

  ghost function Broadcast<C>(id: string, w: World<C>, e: Event): World<C> {
    w.(hub := Step(w.hub, Publish(id, e)), published := w.published + 1)
  }

  ghost function Next<C>(id: string, results: seq<JudgeResult>, w: World<C>, m: Move<C>): World<C>
    requires CanMove(id, results, w, m)
  {
    match m
    case Save => w.(creator := Saved, status := Some(Queued))
    case Announce => Broadcast(id, w.(creator := Announced), QueuedEvent(id))
    case Enqueue => w.(creator := Enqueued)
    case Emit => w.(pipe := w.pipe + [results[w.emitted]], emitted := w.emitted + 1)
    case Take => w.(pipe := w.pipe[1..], reporter := Holding(w.pipe[0]))
    case Update => w.(status := Some(w.reporter.result.status), reporter := Stored(w.reporter.result))
    case Report =>
      var result := w.reporter.result;
      Broadcast(id, w.(reporter := if result.final then Done else Idle), ResultEvent(result))
    case HubMove(a) =>
      w.(hub := Step(w.hub, a), joined := if a.Register? then w.joined[a.c := w.published] else w.joined)
  }

  // ---------- the script of a submission ----------

  /** Every event the submission will ever have, in order. */
  ghost function Script(id: string, results: seq<JudgeResult>): seq<Event> {
    [QueuedEvent(id)] + seq(|results|, i requires 0 <= i < |results| => ResultEvent(results[i]))
  }

  lemma ScriptEndsFinal(id: string, results: seq<JudgeResult>)
    requires OneVerdict(id, results)
    ensures 2 <= |Script(id, results)| == |results| + 1 <= 4
    ensures forall i | 0 <= i < |Script(id, results)| ::
              Script(id, results)[i].final <==> i == |Script(id, results)| - 1
  {
  }

  /** The script, field by field: the queued event, and then each result of the provider. */
  lemma ScriptFields(id: string, results: seq<JudgeResult>, i: nat)
    requires i <= |results|
    ensures var e := Script(id, results)[i];
            if i == 0 then
              && e.submissionId == id && e.status == Queued && e.testCaseIndex == 0 && e.message == QueuedMessage
              && e.timeMs == 0 && e.memoryBytes == 0 && !e.final
            else
              && e.submissionId == results[i - 1].submissionId && e.status == results[i - 1].status
              && e.testCaseIndex == results[i - 1].testCaseIndex && e.message == results[i - 1].message
              && e.timeMs == results[i - 1].timeMs && e.memoryBytes == results[i - 1].memoryBytes
              && e.final == results[i - 1].final
  {
  }

  // ---------- the invariant ----------

  ghost function Held(r: Reporter): nat {
    if r.Holding? || r.Stored? then 1 else 0
  }

  /** Results whose broadcast is done. */
  ghost function Reported<C>(w: World<C>): int {
    w.emitted - |w.pipe| - Held(w.reporter)
  }

  /** The channel holds these results, from the given one on. */
  ghost predicate Carries(results: seq<JudgeResult>, first: int, pipe: seq<JudgeResult>) {
    && 0 <= first && first + |pipe| <= |results|
    && forall k {:trigger pipe[k]} | 0 <= k < |pipe| :: pipe[k] == results[first + k]
  }

  ghost predicate PipelineInv<C>(id: string, results: seq<JudgeResult>, w: World<C>) {
    && 0 <= Reported(w) && w.emitted <= |results|
    && (!w.creator.Enqueued? ==> w.emitted == 0 && w.reporter.Idle?)
    && w.published == (if w.creator.Start? || w.creator.Saved? then 0 else 1 + Reported(w))
    && Carries(results, w.emitted - |w.pipe|, w.pipe)
    && (Held(w.reporter) == 1 ==> w.reporter.result == results[Reported(w)])
    && (w.reporter.Done? <==> Reported(w) == |results|)
    && w.status == (if w.creator.Start? then None
                    else if w.reporter.Stored? then Some(w.reporter.result.status)
                    else if Reported(w) == 0 then Some(Queued)
                    else Some(results[Reported(w) - 1].status))
  }

  /** What has been broadcast, as the hub remembers it. */
  ghost predicate HubInv<C>(id: string, results: seq<JudgeResult>, w: World<C>) {
    && Inv(w.hub)
    && w.published <= |Script(id, results)|
    && w.hub.Latest(id) == (if w.published == 0 then None else Some(Script(id, results)[w.published - 1]))
  }

  /** The events channel `c` has been sent: all broadcasts since it joined, and its snapshot once replayed. */
  ghost function Due(script: seq<Event>, joined: nat, published: nat, replayed: bool): multiset<Event>
    requires joined <= published <= |script|
  {
    multiset(script[joined..published]) + if joined > 0 && replayed then multiset{script[joined - 1]} else multiset{}
  }

  ghost predicate StreamInv(script: seq<Event>, joined: nat, published: nat, m: Mailbox) {
    && joined <= published <= |script|
    && (m.replay.Some? ==> joined > 0 && m.replay.value == script[joined - 1])
    && (!m.closed ==> multiset(m.Arrivals()) == Due(script, joined, published, m.replay.None?))
    && (forall i | 0 <= i < |m.received| - 1 :: !m.received[i].final)
    && (forall e | e in m.received :: e in script)
    && (m.closed ==> SawFinal(m.received))
  }

  ghost predicate WorldInv<C>(id: string, results: seq<JudgeResult>, w: World<C>) {
    && OneVerdict(id, results)
    && PipelineInv(id, results, w)
    && HubInv(id, results, w)
    && AllFollow(id, results, w)
  }

  ghost predicate AllFollow<C>(id: string, results: seq<JudgeResult>, w: World<C>) {
    forall c | c in w.hub.mailboxes && w.hub.mailboxes[c].topic == id :: Follows(id, results, w, c)
  }

  ghost predicate Follows<C>(id: string, results: seq<JudgeResult>, w: World<C>, c: C)
    requires c in w.hub.mailboxes
  {
    c in w.joined && StreamInv(Script(id, results), w.joined[c], w.published, w.hub.mailboxes[c])
  }

  lemma InitialInv<C>(id: string, results: seq<JudgeResult>)
    requires OneVerdict(id, results)
    ensures WorldInv<C>(id, results, Initial())
  {
  }

  lemma PipelineKept<C>(id: string, results: seq<JudgeResult>, w: World<C>, m: Move<C>)
    requires OneVerdict(id, results) && PipelineInv(id, results, w) && CanMove(id, results, w, m)
    ensures PipelineInv(id, results, Next(id, results, w, m))
  {
    match m {
      case Emit => EmitKeeps(id, results, w);
      case Take => TakeKeeps(id, results, w);
      case Report => ReportKeeps(id, results, w);
      case HubMove(a) => SamePipeline(id, results, w, Next(id, results, w, m));
      case _ => ScriptKeeps(id, results, w, m);
    }
  }

  lemma ScriptKeeps<C>(id: string, results: seq<JudgeResult>, w: World<C>, m: Move<C>)
    requires PipelineInv(id, results, w) && CanMove(id, results, w, m)
    requires m.Save? || m.Announce? || m.Enqueue? || m.Update?
    ensures PipelineInv(id, results, Next(id, results, w, m))
  {
    var w' := Next(id, results, w, m);
    assert w'.pipe == w.pipe && w'.emitted == w.emitted && Held(w'.reporter) == Held(w.reporter);
    assert Reported(w') == Reported(w);
  }

  /** The pipeline does not look at the hub. */
  lemma SamePipeline<C>(id: string, results: seq<JudgeResult>, w: World<C>, w': World<C>)
    requires PipelineInv(id, results, w) && w' == w.(hub := w'.hub, joined := w'.joined)
    ensures PipelineInv(id, results, w')
  {
  }

  lemma EmitKeeps<C>(id: string, results: seq<JudgeResult>, w: World<C>)
    requires PipelineInv(id, results, w) && CanMove(id, results, w, Emit)
    ensures PipelineInv(id, results, Next(id, results, w, Emit))
  {
    assert Reported(Next(id, results, w, Emit)) == Reported(w);
  }

  lemma TakeKeeps<C>(id: string, results: seq<JudgeResult>, w: World<C>)
    requires PipelineInv(id, results, w) && CanMove(id, results, w, Take)
    ensures PipelineInv(id, results, Next(id, results, w, Take))
  {
    assert w.pipe[0] == results[w.emitted - |w.pipe|];
  }

  lemma ReportKeeps<C>(id: string, results: seq<JudgeResult>, w: World<C>)
    requires OneVerdict(id, results) && PipelineInv(id, results, w) && CanMove(id, results, w, Report)
    ensures PipelineInv(id, results, Next(id, results, w, Report))
  {
    assert w.reporter.result == results[Reported(w)];
    assert w.reporter.result.final <==> Reported(w) == |results| - 1;
  }

  lemma HubKept<C>(id: string, results: seq<JudgeResult>, w: World<C>, m: Move<C>)
    requires WorldInv(id, results, w) && CanMove(id, results, w, m)
    ensures HubInv(id, results, Next(id, results, w, m))
  {
    match m {
      case Announce => StepKeepsInv(w.hub, Publish(id, QueuedEvent(id)));
      case Report =>
        StepKeepsInv(w.hub, Publish(id, ResultEvent(w.reporter.result)));
        assert Script(id, results)[w.published] == ResultEvent(w.reporter.result);
      case HubMove(a) => StepKeepsInv(w.hub, a);
      case _ =>
    }
  }

  /** A stream never has more than four events waiting, so no broadcast of this submission is ever dropped. */
  lemma BufferBound(script: seq<Event>, joined: nat, published: nat, m: Mailbox)
    requires StreamInv(script, joined, published, m) && |script| <= 4 && !m.closed
    ensures |m.Arrivals()| <= 4 && |m.buffer| <= 4
    ensures m.replay.Some? ==> |m.buffer| <= 3
  {
    assert |multiset(m.Arrivals())| == |m.Arrivals()|;
    assert |Due(script, joined, published, m.replay.None?)| == published - joined + if joined > 0 && m.replay.None? then 1 else 0;
  }

  lemma MoreIsDue(script: seq<Event>, joined: nat, published: nat, replayed: bool)
    requires joined <= published < |script|
    ensures Due(script, joined, published + 1, replayed) == Due(script, joined, published, replayed) + multiset{script[published]}
  {
    assert script[joined..published + 1] == script[joined..published] + [script[published]];
  }

  /** Broadcasting the next event of the script. */
  lemma StreamHears(id: string, script: seq<Event>, joined: nat, published: nat, m: Mailbox)
    requires StreamInv(script, joined, published, m) && published < |script| <= 4
    ensures StreamInv(script, joined, published + 1, if m.closed then m else Offer(m, script[published]))
  {
    if !m.closed {
      BufferBound(script, joined, published, m);
      MoreIsDue(script, joined, published, m.replay.None?);
      assert m.received + (m.buffer + [script[published]]) == m.received + m.buffer + [script[published]];
    }
  }

  lemma StreamReplays(script: seq<Event>, joined: nat, published: nat, m: Mailbox)
    requires StreamInv(script, joined, published, m) && m.replay.Some?
    ensures StreamInv(script, joined, published, m.(buffer := m.buffer + [m.replay.value], replay := None))
  {
    assert m.received + (m.buffer + [m.replay.value]) == m.received + m.buffer + [m.replay.value];
  }

  lemma StreamReads(script: seq<Event>, joined: nat, published: nat, m: Mailbox)
    requires StreamInv(script, joined, published, m) && !SawFinal(m.received) && m.buffer != []
    ensures StreamInv(script, joined, published, m.(buffer := m.buffer[1..], received := m.received + [m.buffer[0]]))
  {
    assert m.received + [m.buffer[0]] + m.buffer[1..] == m.received + m.buffer;
    assert m.Arrivals()[|m.received|] == m.buffer[0];
    if !m.closed {
      assert m.buffer[0] in multiset(m.Arrivals());
      assert m.buffer[0] in script[joined..published] || m.buffer[0] == script[joined - 1];
    }
  }

  /** The steps of the streams of this submission. */
  lemma StreamActs<C>(id: string, script: seq<Event>, joined: nat, published: nat, hub: HubState<C>, a: Action<C>, c: C)
    requires Inv(hub) && Enabled(hub, a) && StreamMove(id, hub, a)
    requires c in hub.mailboxes && hub.mailboxes[c].topic == id
    requires StreamInv(script, joined, published, hub.mailboxes[c])
    ensures c in Step(hub, a).mailboxes && StreamInv(script, joined, published, Step(hub, a).mailboxes[c])
  {
    StepChangesMailbox(hub, a, c);
    if a == Replay(c) {
      StreamReplays(script, joined, published, hub.mailboxes[c]);
    } else if a == Receive(c) {
      StreamReads(script, joined, published, hub.mailboxes[c]);
    }
  }

  lemma StreamJoins<C>(id: string, results: seq<JudgeResult>, w: World<C>)
    requires HubInv(id, results, w)
    ensures StreamInv(Script(id, results), w.published, w.published, Mailbox(id, [], [], w.hub.Latest(id), false))
  {
    assert Script(id, results)[w.published..w.published] == [];
  }

  /** Both broadcasting moves publish the next event of the script. */
  lemma BroadcastsScript<C>(id: string, results: seq<JudgeResult>, w: World<C>, m: Move<C>)
    requires OneVerdict(id, results) && PipelineInv(id, results, w)
    requires CanMove(id, results, w, m) && (m.Announce? || m.Report?)
    ensures w.published < |Script(id, results)| <= 4
    ensures Next(id, results, w, m).hub == Step(w.hub, Publish(id, Script(id, results)[w.published]))
    ensures Next(id, results, w, m).published == w.published + 1 && Next(id, results, w, m).joined == w.joined
  {
  }

  lemma Channels<C>(id: string, results: seq<JudgeResult>, w: World<C>, m: Move<C>, c: C)
    requires CanMove(id, results, w, m)
    requires c in Next(id, results, w, m).hub.mailboxes && Next(id, results, w, m).hub.mailboxes[c].topic == id
    ensures if c in w.hub.mailboxes then w.hub.mailboxes[c].topic == id else m == HubMove(Register(c, id))
  {
    match m {
      case Announce => StepRegisters(w.hub, Publish(id, QueuedEvent(id)), c);
      case Report => StepRegisters(w.hub, Publish(id, ResultEvent(w.reporter.result)), c);
      case HubMove(a) => StepRegisters(w.hub, a, c);
      case _ =>
    }
  }

  /** Every stream of the submission, old or new, stays in step with the script. */
  lemma FollowsKept<C>(id: string, results: seq<JudgeResult>, w: World<C>, m: Move<C>, c: C, w': World<C>)
    requires WorldInv(id, results, w) && CanMove(id, results, w, m) && w' == Next(id, results, w, m)
    requires c in w'.hub.mailboxes && w'.hub.mailboxes[c].topic == id
    ensures Follows(id, results, w', c)
  {
    hide OneVerdict, Script, PipelineInv, StreamInv;
    Channels(id, results, w, m, c);
    if c !in w.hub.mailboxes {
      StreamJoins(id, results, w);
    } else if m.Announce? || m.Report? {
      BroadcastsScript(id, results, w, m);
      StepChangesMailbox(w.hub, Publish(id, Script(id, results)[w.published]), c);
      StreamHears(id, Script(id, results), w.joined[c], w.published, w.hub.mailboxes[c]);
    } else if m.HubMove? {
      StreamActs(id, Script(id, results), w.joined[c], w.published, w.hub, m.action, c);
    }
  }

  lemma InvKept<C>(id: string, results: seq<JudgeResult>, w: World<C>, m: Move<C>)
    requires WorldInv(id, results, w) && CanMove(id, results, w, m)
    ensures WorldInv(id, results, Next(id, results, w, m))
  {
    hide CanMove, Next, PipelineInv, HubInv, Follows;
    var w' := Next(id, results, w, m);
    PipelineKept(id, results, w, m);
    HubKept(id, results, w, m);
    forall c | c in w'.hub.mailboxes && w'.hub.mailboxes[c].topic == id ensures Follows(id, results, w', c) {
      FollowsKept(id, results, w, m, c, w');
    }
  }

  // ---------- every run ----------

  /** A run of the whole system: its moves and the worlds before and after each of them. */
  datatype History<!C> = History(moves: seq<Move<C>>, worlds: seq<World<C>>) {
    ghost predicate Valid(id: string, results: seq<JudgeResult>) {
      && |worlds| == |moves| + 1
      && worlds[0] == Initial()
      && forall i {:trigger Follows(id, results, i)} | 0 <= i < |moves| :: Follows(id, results, i)
    }

    ghost predicate Follows(id: string, results: seq<JudgeResult>, i: int)
      requires 0 <= i < |moves| && |worlds| == |moves| + 1
    {
      CanMove(id, results, worlds[i], moves[i]) && worlds[i + 1] == Next(id, results, worlds[i], moves[i])
    }
  }

  lemma {:induction false} InvAtWorld<C>(id: string, results: seq<JudgeResult>, h: History<C>, i: nat)
    requires OneVerdict(id, results) && h.Valid(id, results) && i <= |h.moves|
    ensures WorldInv(id, results, h.worlds[i])
  {
    if i == 0 {
      InitialInv<C>(id, results);
    } else {
      InvAtWorld(id, results, h, i - 1);
      assert h.Follows(id, results, i - 1);
      InvKept(id, results, h.worlds[i - 1], h.moves[i - 1]);
    }
  }

  /**
    In every run no stream of the submission ever has more than four of its eight slots filled, so no
    broadcast is dropped and a pending replay can always be sent.
   */
  lemma NeverHalfFull<C>(id: string, results: seq<JudgeResult>, h: History<C>, i: nat, c: C)
    requires OneVerdict(id, results) && h.Valid(id, results) && i <= |h.moves|
    requires c in h.worlds[i].hub.mailboxes && h.worlds[i].hub.mailboxes[c].topic == id
    requires !h.worlds[i].hub.mailboxes[c].closed
    ensures |h.worlds[i].hub.mailboxes[c].buffer| <= 4
    ensures h.worlds[i].hub.mailboxes[c].replay.Some? ==> Enabled(h.worlds[i].hub, Replay(c))
    ensures i < |h.moves| && (h.moves[i].Announce? || h.moves[i].Report?) ==>
              && c in h.worlds[i + 1].hub.mailboxes
              && h.worlds[i + 1].published == h.worlds[i].published + 1 <= |Script(id, results)|
              && h.worlds[i + 1].hub.mailboxes[c].buffer
              == h.worlds[i].hub.mailboxes[c].buffer + [Script(id, results)[h.worlds[i].published]]
  {
    InvAtWorld(id, results, h, i);
    ScriptEndsFinal(id, results);
    var w := h.worlds[i];
    assert Follows(id, results, w, c);
    BufferBound(Script(id, results), w.joined[c], w.published, w.hub.mailboxes[c]);
    if i < |h.moves| && (h.moves[i].Announce? || h.moves[i].Report?) {
      assert h.Follows(id, results, i);
      BroadcastsScript(id, results, w, h.moves[i]);
      StepChangesMailbox(w.hub, Publish(id, Script(id, results)[w.published]), c);
    }
  }

  /** What a stream has sent so far has no final event before its last one, and only events of this submission. */
  lemma SentSoFar<C>(id: string, results: seq<JudgeResult>, h: History<C>, i: nat, c: C)
    requires OneVerdict(id, results) && h.Valid(id, results) && i <= |h.moves|
    requires c in h.worlds[i].hub.mailboxes && h.worlds[i].hub.mailboxes[c].topic == id
    ensures var sent := h.worlds[i].hub.mailboxes[c].received;
            && (forall k | 0 <= k < |sent| - 1 :: !sent[k].final)
            && (forall e | e in sent :: e in Script(id, results))
  {
    InvAtWorld(id, results, h, i);
    assert Follows(id, results, h.worlds[i], c);
  }

  /** The moves of the handler, the judge and the dispatcher, and those of one stream. */
  ghost predicate Concerns<C>(m: Move<C>, c: C) {
    !m.HubMove? || m.action in {Replay(c), Receive(c), Unsubscribe(c)}
  }

  /** Nothing that concerns stream `c` can happen any more. */
  ghost predicate Quiescent<C(!new)>(id: string, results: seq<JudgeResult>, w: World<C>, c: C) {
    forall m | Concerns(m, c) :: !CanMove(id, results, w, m)
  }

  /** Exactly one final event, and it is the last. */
  ghost predicate EndsWithOneFinal(events: seq<Event>) {
    events != [] && forall i | 0 <= i < |events| :: events[i].final <==> i == |events| - 1
  }

  lemma PipelineDrained<C(!new)>(id: string, results: seq<JudgeResult>, w: World<C>, c: C)
    requires OneVerdict(id, results) && PipelineInv(id, results, w) && Quiescent(id, results, w, c)
    ensures w.published == |Script(id, results)| && w.status == Some(results[|results| - 1].status)
  {
    hide Step;
    var moves: seq<Move<C>> := [Save, Announce, Enqueue, Emit, Take, Update, Report];
    forall m | m in moves ensures !CanMove(id, results, w, m) {
      assert Concerns(m, c);
    }
    assert !CanMove(id, results, w, moves[0]) && !CanMove(id, results, w, moves[1]) && !CanMove(id, results, w, moves[2]);
    assert !CanMove(id, results, w, moves[3]) && !CanMove(id, results, w, moves[4]);
    assert !CanMove(id, results, w, moves[5]) && !CanMove(id, results, w, moves[6]);
  }

  lemma StreamDrained(script: seq<Event>, joined: nat, m: Mailbox)
    requires StreamInv(script, joined, |script|, m) && script != [] && script[|script| - 1].final
    requires !m.closed && m.replay.None? && m.buffer == []
    ensures SawFinal(m.received)
  {
    var last := script[|script| - 1];
    assert m.Arrivals() == m.received;
    if joined < |script| {
      assert script[joined..|script|][|script| - 1 - joined] == last;
    }
    assert last in Due(script, joined, |script|, true);
    assert last in multiset(m.received);
    var k :| 0 <= k < |m.received| && m.received[k] == last;
    assert m.received[k].final;
  }

  /**
    End to end: whenever a run has nothing left to do for a stream, that stream has sent exactly one
    final event, as its last, with the verdict that is also the stored status, and has unsubscribed.
   */
  lemma ExactlyOneFinal<C(!new)>(id: string, results: seq<JudgeResult>, h: History<C>, i: nat, c: C)
    requires OneVerdict(id, results) && h.Valid(id, results) && i <= |h.moves|
    requires c in h.worlds[i].hub.mailboxes && h.worlds[i].hub.mailboxes[c].topic == id
    requires Quiescent(id, results, h.worlds[i], c)
    ensures var m := h.worlds[i].hub.mailboxes[c];
            && EndsWithOneFinal(m.received) && m.closed
            && m.received[|m.received| - 1] == ResultEvent(results[|results| - 1])
            && h.worlds[i].status == Some(m.received[|m.received| - 1].status)
  {
    InvAtWorld(id, results, h, i);
    ScriptEndsFinal(id, results);
    var w := h.worlds[i];
    var script := Script(id, results);
    var m := w.hub.mailboxes[c];
    assert Follows(id, results, w, c);
    PipelineDrained(id, results, w, c);
    assert Concerns(HubMove(Replay(c)), c) && Concerns(HubMove(Receive(c)), c) && Concerns(HubMove(Unsubscribe(c)), c);
    assert !CanMove(id, results, w, HubMove(Replay(c)));
    assert !CanMove(id, results, w, HubMove(Receive(c)));
    assert !CanMove(id, results, w, HubMove(Unsubscribe(c)));
    if !m.closed {
      BufferBound(script, w.joined[c], w.published, m);
      assert m.replay.None?;
      if m.buffer == [] {
        StreamDrained(script, w.joined[c], m);
      }
      assert false;
    }
    var k :| 0 <= k < |m.received| && m.received[k].final;
    assert m.received[k] in script;
  }

  // ---------- every run ends ----------

  ghost function PipelineRank<C>(results: seq<JudgeResult>, w: World<C>): int {
    (match w.creator case Start => 3 case Saved => 2 case Announced => 1 case Enqueued => 0)
    + 4 * (|results| - w.emitted) + 3 * |w.pipe|
    + (match w.reporter case Holding(_) => 2 case Stored(_) => 1 case _ => 0)
  }

  ghost function StreamRank(m: Mailbox): nat {
    (if m.replay.Some? then 2 else 0) + |m.buffer| + if m.closed then 0 else 1
  }

  ghost function Rank<C>(results: seq<JudgeResult>, w: World<C>, c: C): int
    requires c in w.hub.mailboxes
  {
    2 * PipelineRank(results, w) + StreamRank(w.hub.mailboxes[c])
  }

  lemma PipelineRankFalls<C>(id: string, results: seq<JudgeResult>, w: World<C>, m: Move<C>)
    requires PipelineInv(id, results, w) && CanMove(id, results, w, m)
    ensures var w' := Next(id, results, w, m);
            PipelineRank(results, w') == PipelineRank(results, w) - if m.HubMove? then 0 else 1
  {
    var w' := Next(id, results, w, m);
    match m {
      case Emit => assert w'.emitted == w.emitted + 1 && |w'.pipe| == |w.pipe| + 1;
      case Take => assert w'.emitted == w.emitted && |w'.pipe| == |w.pipe| - 1 && w'.reporter.Holding? && w.reporter.Idle?;
      case Update => assert w'.pipe == w.pipe && w'.reporter.Stored? && w.reporter.Holding?;
      case Report => assert w'.pipe == w.pipe && w.reporter.Stored? && !w'.reporter.Holding? && !w'.reporter.Stored?;
      case HubMove(_) => RankIgnoresHub(results, w, w');
      case _ => assert w'.pipe == w.pipe && w'.reporter == w.reporter && w'.emitted == w.emitted;
    }
  }

  lemma RankIgnoresHub<C>(results: seq<JudgeResult>, w: World<C>, w': World<C>)
    requires w' == w.(hub := w'.hub, joined := w'.joined)
    ensures PipelineRank(results, w') == PipelineRank(results, w)
  {
  }

  lemma PipelineRankNonNegative<C>(id: string, results: seq<JudgeResult>, w: World<C>)
    requires PipelineInv(id, results, w)
    ensures 0 <= PipelineRank(results, w)
  {
  }

  lemma StreamRankChange<C>(m: Mailbox, a: Action<C>, c: C, m': Mailbox)
    requires MailboxChange(m, a, c, m') && (a == Unsubscribe(c) ==> !m.closed)
    ensures a.Publish? ==> StreamRank(m') <= StreamRank(m) + 1
    ensures a in {Replay(c), Receive(c), Unsubscribe(c)} ==> StreamRank(m') == StreamRank(m) - 1
    ensures a !in {Replay(c), Receive(c), Unsubscribe(c)} && !(a.Publish? && a.topic == m.topic) ==> m' == m
  {
  }

  /** What a move does to the hub. */
  ghost function HubAction<C>(id: string, w: World<C>, m: Move<C>): Option<Action<C>> {
    match m
    case Announce => Some(Publish(id, QueuedEvent(id)))
    case Report => if w.reporter.Stored? then Some(Publish(id, ResultEvent(w.reporter.result))) else None
    case HubMove(a) => Some(a)
    case _ => None
  }

  lemma StreamRankMoves<C>(id: string, results: seq<JudgeResult>, w: World<C>, m: Move<C>, c: C)
    requires Inv(w.hub) && CanMove(id, results, w, m)
    requires c in w.hub.mailboxes && w.hub.mailboxes[c].topic == id
    ensures var hub' := Next(id, results, w, m).hub;
            && c in hub'.mailboxes && hub'.mailboxes[c].topic == id
            && (!m.HubMove? ==> StreamRank(hub'.mailboxes[c]) <= StreamRank(w.hub.mailboxes[c]) + 1)
            && (m.HubMove? ==>
                  StreamRank(hub'.mailboxes[c]) == StreamRank(w.hub.mailboxes[c]) - if Concerns(m, c) then 1 else 0)
  {
    var hub' := Next(id, results, w, m).hub;
    var a := HubAction(id, w, m);
    if a.Some? {
      assert hub' == Step(w.hub, a.value);
      StepChangesMailbox(w.hub, a.value, c);
      StreamRankChange(w.hub.mailboxes[c], a.value, c, hub'.mailboxes[c]);
    }
  }

  lemma RankFalls<C>(id: string, results: seq<JudgeResult>, w: World<C>, m: Move<C>, c: C)
    requires PipelineInv(id, results, w) && Inv(w.hub) && CanMove(id, results, w, m)
    requires c in w.hub.mailboxes && w.hub.mailboxes[c].topic == id
    ensures var w' := Next(id, results, w, m);
            && c in w'.hub.mailboxes && w'.hub.mailboxes[c].topic == id
            && (if Concerns(m, c) then Rank(results, w', c) < Rank(results, w, c) else Rank(results, w', c) == Rank(results, w, c))
  {
    PipelineRankFalls(id, results, w, m);
    StreamRankMoves(id, results, w, m, c);
  }

  /** The moves between `i` and `j` that concern stream `c`. */
  ghost function Concerning<C>(h: History<C>, c: C, i: nat, j: nat): nat
    requires i <= j <= |h.moves|
    decreases j
  {
    if i == j then 0 else Concerning(h, c, i, j - 1) + if Concerns(h.moves[j - 1], c) then 1 else 0
  }

  lemma RankNonNegativeAt<C>(id: string, results: seq<JudgeResult>, h: History<C>, c: C, k: nat)
    requires OneVerdict(id, results) && h.Valid(id, results) && k <= |h.moves|
    requires c in h.worlds[k].hub.mailboxes
    ensures 0 <= Rank(results, h.worlds[k], c)
  {
    InvAtWorld(id, results, h, k);
    PipelineRankNonNegative(id, results, h.worlds[k]);
  }

  lemma RankFallsAt<C>(id: string, results: seq<JudgeResult>, h: History<C>, c: C, k: nat)
    requires OneVerdict(id, results) && h.Valid(id, results) && k < |h.moves|
    requires c in h.worlds[k].hub.mailboxes && h.worlds[k].hub.mailboxes[c].topic == id
    ensures c in h.worlds[k + 1].hub.mailboxes && h.worlds[k + 1].hub.mailboxes[c].topic == id
    ensures if Concerns(h.moves[k], c) then Rank(results, h.worlds[k + 1], c) < Rank(results, h.worlds[k], c)
            else Rank(results, h.worlds[k + 1], c) == Rank(results, h.worlds[k], c)
  {
    InvAtWorld(id, results, h, k);
    assert h.Follows(id, results, k);
    RankFalls(id, results, h.worlds[k], h.moves[k], c);
  }

  /** From any moment on, only so many moves can concern a stream: every run comes to the end described above. */
  lemma {:induction false} EveryRunEnds<C>(id: string, results: seq<JudgeResult>, h: History<C>, c: C, i: nat, j: nat)
    requires OneVerdict(id, results) && h.Valid(id, results) && i <= j <= |h.moves|
    requires c in h.worlds[i].hub.mailboxes && h.worlds[i].hub.mailboxes[c].topic == id
    ensures c in h.worlds[j].hub.mailboxes && h.worlds[j].hub.mailboxes[c].topic == id
    ensures 0 <= Rank(results, h.worlds[j], c)
    ensures Concerning(h, c, i, j) + Rank(results, h.worlds[j], c) <= Rank(results, h.worlds[i], c)
    decreases j
  {
    if i < j {
      EveryRunEnds(id, results, h, c, i, j - 1);
      RankFallsAt(id, results, h, c, j - 1);
    }
    RankNonNegativeAt(id, results, h, c, j);
  }

  /**
    Put together: a stream of a task judged by either provider ends with the provider's verdict, and
    under go-judge that is "accepted" exactly when the program compiles, runs and prints the right tokens.
   */
  lemma StreamEndsWithVerdict<C(!new)>(judge: Dispatcher.Judge, task: JudgeTask, h: History<C>, i: nat, c: C)
    requires h.Valid(task.submissionId, Dispatcher.Emitted(judge, task)) && i <= |h.moves|
    requires c in h.worlds[i].hub.mailboxes && h.worlds[i].hub.mailboxes[c].topic == task.submissionId
    requires Quiescent(task.submissionId, Dispatcher.Emitted(judge, task), h.worlds[i], c)
    ensures var sent := h.worlds[i].hub.mailboxes[c].received;
            && EndsWithOneFinal(sent)
            && sent[|sent| - 1].submissionId == task.submissionId
            && (judge.Mock? ==> sent[|sent| - 1].status == Accepted)
            && (judge.Remote? && Runs(task, judge.provider) ==>
                  var last, run := sent[|sent| - 1], SampleRun(task, judge.provider).value;
                  && last.testCaseIndex == 1 && last.memoryBytes == run.memory
                  && last.timeMs == (if run.time <= 0 then 0 else run.time / 1_000_000)
                  && (last.status == Accepted ==> last.message == SampleAccepted))
            && (judge.Remote? ==>
                  (sent[|sent| - 1].status == Accepted <==>
                    && Runs(task, judge.provider)
                    && SampleRun(task, judge.provider).value.status == "Accepted"
                    && Text.Fields(Lookup(SampleRun(task, judge.provider).value.files, "stdout"))
                    == Text.Fields(judge.provider.SampleFor(task.problemId).value.output)))
  {
    Dispatcher.EmittedHasOneVerdict(judge, task);
    ExactlyOneFinal(task.submissionId, Dispatcher.Emitted(judge, task), h, i, c);
    if judge.Remote? {
      AcceptedIff(task, judge.provider);
      if Runs(task, judge.provider) {
        VerdictFields(task, judge.provider);
      }
    }
  }
}
