/** Whether a stream comes to its end: it can whenever its submission is judged, and it never does without a verdict. */
module StreamEnds {
  import opened Basics
  import opened Submissions
  import opened HubMachine
  import opened GoJudge
  import opened EndToEnd

  // ---------- a judged submission ----------

  ghost function Longer<C>(id: string, results: seq<JudgeResult>, h: History<C>, m: Move<C>): History<C>
    requires |h.worlds| == |h.moves| + 1 && CanMove(id, results, h.worlds[|h.moves|], m)
  {
    History(h.moves + [m], h.worlds + [Next(id, results, h.worlds[|h.moves|], m)])
  }

  lemma LongerIsValid<C>(id: string, results: seq<JudgeResult>, h: History<C>, m: Move<C>)
    requires h.Valid(id, results) && CanMove(id, results, h.worlds[|h.moves|], m)
    ensures Longer(id, results, h, m).Valid(id, results)
  {
    hide CanMove, Next;
    var g := Longer(id, results, h, m);
    forall i | 0 <= i < |g.moves| ensures g.Follows(id, results, i) {
      if i < |h.moves| {
        assert h.Follows(id, results, i);
        assert g.moves[i] == h.moves[i] && g.worlds[i] == h.worlds[i] && g.worlds[i + 1] == h.worlds[i + 1];
      }
    }
  }

  /** The channel `c` is a stream of the submission at the end of the history. */
  ghost predicate Streams<C>(id: string, h: History<C>, c: C) {
    && |h.worlds| == |h.moves| + 1
    && c in h.worlds[|h.moves|].hub.mailboxes && h.worlds[|h.moves|].hub.mailboxes[c].topic == id
  }

  lemma MoveOn<C(!new)>(id: string, results: seq<JudgeResult>, h: History<C>, c: C) returns (g: History<C>)
    requires OneVerdict(id, results) && h.Valid(id, results) && Streams(id, h, c)
    requires !Quiescent(id, results, h.worlds[|h.moves|], c)
    ensures g.Valid(id, results) && h.moves < g.moves && Streams(id, g, c)
    ensures 0 <= Rank(results, g.worlds[|g.moves|], c) < Rank(results, h.worlds[|h.moves|], c)
  {
    var n := |h.moves|;
    var m :| Concerns(m, c) && CanMove(id, results, h.worlds[n], m);
    g := Longer(id, results, h, m);
    LongerIsValid(id, results, h, m);
    InvAtWorld(id, results, h, n);
    RankFalls(id, results, h.worlds[n], m, c);
    RankNonNegativeAt(id, results, g, c, n + 1);
  }

  /** From every moment of every run the stream can be brought to its end: some continuation is quiescent for it. */
  lemma {:induction false} StreamCanEnd<C(!new)>(id: string, results: seq<JudgeResult>, h: History<C>, c: C) returns (g: History<C>)
    requires OneVerdict(id, results) && h.Valid(id, results) && Streams(id, h, c)
    ensures g.Valid(id, results) && h.moves <= g.moves && Streams(id, g, c)
    ensures Quiescent(id, results, g.worlds[|g.moves|], c)
    ensures EndsWithOneFinal(g.worlds[|g.moves|].hub.mailboxes[c].received) && g.worlds[|g.moves|].hub.mailboxes[c].closed
    decreases Rank(results, h.worlds[|h.moves|], c)
  {
    g := h;
    if !Quiescent(id, results, h.worlds[|h.moves|], c) {
      var next := MoveOn(id, results, h, c);
      RankNonNegativeAt(id, results, h, c, |h.moves|);
      g := StreamCanEnd(id, results, next, c);
    } else {
      ExactlyOneFinal(id, results, h, |h.moves|, c);
    }
  }

  // ---------- a submission nobody judges ----------

  /** The unsubscribe of a stream comes after a final event, which is the only way its loop ends by itself. */
  ghost predicate StreamDiscipline<C>(e: Run<C>, c: C) {
    |e.states| == |e.trace| + 1 &&
    forall p | 0 <= p < |e.trace| && e.trace[p] == Unsubscribe(c) ::
      c in e.states[p].mailboxes && SawFinal(e.states[p].mailboxes[c].received)
  }

  /** In any run of the hub a stream sees a final event only if one was published on its id. */
  lemma FinalWasPublished<C>(e: Run<C>, c: C, r: nat, n: nat)
    requires e.Valid() && e.RegisteredAt(c, r) && r < n <= |e.trace|
    requires c in e.states[n].mailboxes && SawFinal(e.states[n].mailboxes[c].received)
    ensures exists p: nat :: p < n && e.trace[p].Publish? && e.trace[p].topic == e.trace[r].topic && e.trace[p].event.final
  {
    var m := e.states[n].mailboxes[c];
    var i :| 0 <= i < |m.received| && m.received[i].final;
    assert m.Arrivals()[i] == m.received[i];
    ArrivalWasPublished(e, c, r, n, m.received[i]);
  }

  /**
    After a refused enqueue only the queued event has been published. As long as nothing is reported, no
    stream of that submission sends a final event, and none of them ends.
   */
  lemma RefusedNeverEnds<C>(id: string, e: Run<C>, c: C, r: nat, n: nat)
    requires e.Valid() && e.RegisteredAt(c, r) && e.trace[r].topic == id && r < n <= |e.trace|
    requires forall p | 0 <= p < n && e.trace[p].Publish? && e.trace[p].topic == id :: e.trace[p].event == QueuedEvent(id)
    requires StreamDiscipline(e, c)
    ensures c in e.states[n].mailboxes && !SawFinal(e.states[n].mailboxes[c].received)
    ensures !e.states[n].mailboxes[c].closed
  {
    MailboxAt(e, c, r, n);
    if SawFinal(e.states[n].mailboxes[c].received) {
      FinalWasPublished(e, c, r, n);
    }
    forall p | r < p < n ensures e.trace[p] != Unsubscribe(c) {
      if e.trace[p] == Unsubscribe(c) {
        FinalWasPublished(e, c, r, p);
      }
    }
  }
}
