/** The submission service over its repository and hub, and the life of a submission over any sequence of calls. */
module SubmissionService {
  import opened Basics
  import opened Submissions
  import opened Channels
  import opened Listing
  import opened MemoryStore
  import opened HubMachine
  import opened Hubs
  import Cursor

  datatype Command = Command(actorId: string, problemId: string, contestId: string, languageId: string, sourceCode: string)

  datatype ServiceError =
    | ActorRequired | ProblemRequired | LanguageRequired | SourceRequired
    | EnqueueFailed | SubmissionIdRequired | StatusRequired | UnknownSubmission

  /** What the queue does with the task: there may be no queue at all. */
  datatype Enqueue = NoEnqueuer | Enqueued | Refused

  function Missing(c: Command): Option<ServiceError> {
    if c.actorId == "" then Some(ActorRequired)
    else if c.problemId == "" then Some(ProblemRequired)
    else if c.languageId == "" then Some(LanguageRequired)
    else if c.sourceCode == "" then Some(SourceRequired)
    else None
  }

  function Rejects(r: JudgeResult): Option<ServiceError> {
    if r.submissionId == "" then Some(SubmissionIdRequired)
    else if r.status.Unspecified? then Some(StatusRequired)
    else None
  }

  function NewSubmission(c: Command, id: string, now: Int64): Submission {
    Submission(id, c.actorId, c.problemId, c.contestId, c.languageId, Queued, 0, now)
  }

  /** What the outside can see: the stored submissions and the latest event of each. */
  datatype Life = Life(store: Store, latest: map<string, Event>)

  datatype Call =
    | Create(command: Command, id: string, now: Int64, enqueue: Enqueue)
    | Report(result: JudgeResult)

  /** The effect of one call. */
  function Exec(life: Life, call: Call): Life {
    match call
    case Create(command, id, now, enqueue) =>
      if Missing(command).Some? then life
      else
        var s := NewSubmission(command, id, now);
        Life(life.store[id := if enqueue.Refused? then WithStatus(s, SystemError) else s],
             life.latest[id := QueuedEvent(id)])
    case Report(result) =>
      if Rejects(result).Some? || result.submissionId !in life.store then life
      else
        Life(life.store[result.submissionId := WithStatus(life.store[result.submissionId], result.status)],
             life.latest[result.submissionId := ResultEvent(result)])
  }

  lemma UpdateTwice(store: Store, id: string, first: Submission, second: Submission)
    ensures store[id := first][id := second] == store[id := second]
  {
  }

  lemma NormalizedTwice(store: Store, q: Query)
    ensures List(store, q.(pageSize := NormalizePageSize(q.pageSize))) == List(store, q)
  {
    hide Cursor.Decode;
    var decoded := Cursor.Decode(q.cursor);
    if decoded.Ok? {
      assert Candidates(store, q.(pageSize := NormalizePageSize(q.pageSize)), decoded.value) == Candidates(store, q, decoded.value);
    }
  }

  class Service {
    const repository: MemoryRepository
    const hub: Hub

    constructor (repository: MemoryRepository, hub: Hub)
      ensures this.repository == repository && this.hub == hub
    {
      this.repository, this.hub := repository, hub;
    }

    ghost predicate Valid()
      reads this, repository, repository.submissions.Values, hub, hub.model.mailboxes.Keys
    {
      repository.Valid() && hub.Valid()
    }

    ghost function View(): Life
      reads this, repository, repository.submissions.Values, hub
    {
      Life(repository.Stored(), hub.latest)
    }

    /** Publishing leaves the repository alone. */
    method Broadcast(id: string, event: Event)
      requires Valid()
      modifies hub`latest, hub`model, hub.model.mailboxes.Keys
      ensures Valid() && repository.Stored() == old(repository.Stored())
      ensures hub.latest == old(hub.latest)[id := event]
      ensures hub.model.mailboxes.Keys == old(hub.model.mailboxes.Keys)
    {
      hide Step, Inv, WellKeyed, Hub.Mirrors;
      hub.Publish(id, event);
    }

    /**
      The id and the time come from the generator and the clock, the fate of the task from the queue.
      `queued` is the task that the queue is handed, if there is a queue.
     */
    method CreateSubmission(command: Command, newId: string, now: Int64, enqueue: Enqueue)
      returns (r: Result<Submission, ServiceError>, queued: Option<JudgeTask>)
      requires Valid()
      modifies repository, hub, hub.model.mailboxes.Keys
      ensures Valid() && View() == Exec(old(View()), Create(command, newId, now, enqueue))
      ensures r == match Missing(command)
                   case Some(error) => Err(error)
                   case None => if enqueue.Refused? then Err(EnqueueFailed) else Ok(View().store[newId])
      ensures Missing(command).None? ==>
                && newId in View().store && View().store[newId].submissionId == newId
                && View().store[newId].actorId == command.actorId && View().store[newId].problemId == command.problemId
                && View().store[newId].contestId == command.contestId && View().store[newId].languageId == command.languageId
                && View().store[newId].status == (if enqueue.Refused? then SystemError else Queued)
                && View().store[newId].score == 0 && View().store[newId].createdAt == now
      ensures Missing(command).None? ==>
                && newId in hub.latest && hub.latest[newId].submissionId == newId
                && hub.latest[newId].status == Queued && hub.latest[newId].testCaseIndex == 0
                && hub.latest[newId].message == QueuedMessage && hub.latest[newId].timeMs == 0
                && hub.latest[newId].memoryBytes == 0 && !hub.latest[newId].final
      ensures queued.Some? <==> Missing(command).None? && !enqueue.NoEnqueuer?
      ensures queued.Some? ==>
                && queued.value.submissionId == newId && queued.value.problemId == command.problemId
                && queued.value.contestId == command.contestId && queued.value.languageId == command.languageId
                && queued.value.sourceCode == command.sourceCode
    {
      hide Hub.Mirrors, WellKeyed;
      queued := None;
      if command.actorId == "" {
        return Err(ActorRequired), None;
      }
      if command.problemId == "" {
        return Err(ProblemRequired), None;
      }
      if command.languageId == "" {
        return Err(LanguageRequired), None;
      }
      if command.sourceCode == "" {
        return Err(SourceRequired), None;
      }
      ghost var before := View();
      var submission := NewSubmission(command, newId, now);
      StoreAndAnnounce(submission);
      if !enqueue.NoEnqueuer? {
        queued := Some(JudgeTask(newId, command.problemId, command.contestId, command.languageId, command.sourceCode));
      }
      if enqueue.Refused? {
        MarkFailed(newId);
        UpdateTwice(before.store, newId, submission, WithStatus(submission, SystemError));
        return Err(EnqueueFailed), queued;
      }
      r := Ok(submission);
    }

    /** The broadcast comes before the task is enqueued. */
    method StoreAndAnnounce(submission: Submission)
      requires Valid()
      modifies repository, hub, hub.model.mailboxes.Keys
      ensures Valid()
      ensures View() == Life(old(View()).store[submission.submissionId := submission],
                             old(View()).latest[submission.submissionId := QueuedEvent(submission.submissionId)])
      ensures submission.submissionId in repository.submissions && fresh(repository.submissions[submission.submissionId])
      ensures hub.model.mailboxes.Keys == old(hub.model.mailboxes.Keys)
    {
      ghost var before := View();
      var record := new SubmissionRecord(submission);
      assert repository.Stored() == before.store;
      repository.Save(record);
      assert repository.Stored() == before.store[submission.submissionId := submission];
      Broadcast(submission.submissionId, QueuedEvent(submission.submissionId));
    }

    /** A task the queue refuses marks the submission as failed; nobody is told. */
    method MarkFailed(id: string)
      requires Valid() && id in repository.submissions
      modifies repository.submissions[id]
      ensures Valid()
      ensures View() == Life(old(View()).store[id := WithStatus(old(View()).store[id], SystemError)], old(View()).latest)
    {
      var ignored := repository.UpdateStatus(id, SystemError);
    }

    method ReportJudgeResult(result: JudgeResult) returns (r: Result<Submission, ServiceError>)
      requires Valid()
      modifies repository.submissions.Values, hub, hub.model.mailboxes.Keys
      ensures Valid() && View() == Exec(old(View()), Report(result))
      ensures Rejects(result).Some? ==> r == Err(Rejects(result).value)
      ensures Rejects(result).None? ==>
                r == if result.submissionId in old(View()).store then Ok(View().store[result.submissionId]) else Err(UnknownSubmission)
      ensures r.Ok? ==>
                var id := result.submissionId;
                && r.value.status == result.status
                && id in hub.latest && hub.latest[id].submissionId == id
                && hub.latest[id].status == result.status && hub.latest[id].testCaseIndex == result.testCaseIndex
                && hub.latest[id].message == result.message && hub.latest[id].timeMs == result.timeMs
                && hub.latest[id].memoryBytes == result.memoryBytes && hub.latest[id].final == result.final
    {
      if result.submissionId == "" {
        return Err(SubmissionIdRequired);
      }
      if result.status.Unspecified? {
        return Err(StatusRequired);
      }
      var updated := repository.UpdateStatus(result.submissionId, result.status);
      if updated.Err? {
        return Err(UnknownSubmission);
      }
      r := Ok(updated.value.Value());
      Broadcast(result.submissionId, ResultEvent(result));
    }

    /** The page size is normalised here and again in the repository. */
    method ListSubmissions(q: Query) returns (r: Result<Page, Cursor.DecodeError>)
      requires Valid()
      ensures r == List(View().store, q)
      ensures r.Ok? ==> Cursor.Decode(q.cursor).Ok? && IsPage(View().store, q, Cursor.Decode(q.cursor).value, r.value)
    {
      hide Cursor.Decode, IsPage;
      if List(repository.Stored(), q).Ok? {
        ListIsPage(repository.Stored(), q);
      }
      NormalizedTwice(repository.Stored(), q);
      r := repository.ListSubmissions(q.(pageSize := NormalizePageSize(q.pageSize)));
    }
  }

  // ---------- lives ----------

  /** The state after a sequence of calls on an empty service. */
  function ExecAll(calls: seq<Call>): Life {
    if calls == [] then Life(map[], map[]) else Exec(ExecAll(calls[..|calls| - 1]), calls[|calls| - 1])
  }

  predicate Creates(call: Call, id: string) {
    call.Create? && call.id == id && Missing(call.command).None?
  }

  /** The id a call brings into being. */
  function NewId(call: Call): Option<string> {
    if call.Create? && Missing(call.command).None? then Some(call.id) else None
  }

  predicate Reports(call: Call, id: string) {
    call.Report? && call.result.submissionId == id && Rejects(call.result).None?
  }

  ghost predicate CreatedIn(calls: seq<Call>, id: string) {
    exists i :: 0 <= i < |calls| && Creates(calls[i], id)
  }

  /** The id generator never repeats an id. */
  ghost predicate FreshIds(calls: seq<Call>) {
    forall i, j | 0 <= i < j < |calls| && NewId(calls[j]).Some? :: NewId(calls[i]) != NewId(calls[j])
  }

  /** ACCEPTED was reported for the submission once it existed. */
  ghost predicate AcceptedIn(calls: seq<Call>, id: string) {
    exists i, j :: 0 <= i < j < |calls| && Creates(calls[i], id) && Reports(calls[j], id) && calls[j].result.status == Accepted
  }

  /** The last call about the submission, or None. */
  ghost function LastAbout(calls: seq<Call>, id: string): Option<Call> {
    if calls == [] then None
    else if Creates(calls[|calls| - 1], id) || Reports(calls[|calls| - 1], id) then Some(calls[|calls| - 1])
    else LastAbout(calls[..|calls| - 1], id)
  }

  /** The task was refused by the queue and nothing has been reported since. */
  ghost predicate LeftRefused(calls: seq<Call>, id: string) {
    LastAbout(calls, id).Some? && LastAbout(calls, id).value.Create? && LastAbout(calls, id).value.enqueue.Refused?
  }

  lemma {:induction false} StoredIffCreated(calls: seq<Call>, id: string)
    ensures id in ExecAll(calls).store <==> CreatedIn(calls, id)
    ensures id in ExecAll(calls).latest <==> CreatedIn(calls, id)
  {
    if calls != [] {
      var n := |calls| - 1;
      var before := calls[..n];
      StoredIffCreated(before, id);
      StoredIffCreated(before, if calls[n].Report? then calls[n].result.submissionId else id);
      if CreatedIn(calls, id) && !Creates(calls[n], id) {
        var i :| 0 <= i < |calls| && Creates(calls[i], id);
        assert before[i] == calls[i];
      }
      if CreatedIn(before, id) {
        var i :| 0 <= i < |before| && Creates(before[i], id);
        assert calls[i] == before[i];
      }
    }
  }

  lemma AcceptedStep(calls: seq<Call>, id: string)
    requires calls != []
    ensures AcceptedIn(calls, id)
       <==> || AcceptedIn(calls[..|calls| - 1], id)
            || (&& CreatedIn(calls[..|calls| - 1], id)
                && Reports(calls[|calls| - 1], id) && calls[|calls| - 1].result.status == Accepted)
  {
    var n := |calls| - 1;
    var before := calls[..n];
    if AcceptedIn(calls, id) {
      var i, j :| 0 <= i < j < |calls| && Creates(calls[i], id) && Reports(calls[j], id) && calls[j].result.status == Accepted;
      assert before[i] == calls[i] && (j < n ==> before[j] == calls[j]);
    }
    if AcceptedIn(before, id) {
      var i, j :| 0 <= i < j < |before| && Creates(before[i], id) && Reports(before[j], id) && before[j].result.status == Accepted;
      assert calls[i] == before[i] && calls[j] == before[j];
    }
    if CreatedIn(before, id) && Reports(calls[n], id) && calls[n].result.status == Accepted {
      var i :| 0 <= i < |before| && Creates(before[i], id);
      assert calls[i] == before[i];
    }
  }

  lemma FreshPrefix(calls: seq<Call>)
    requires calls != [] && FreshIds(calls)
    ensures FreshIds(calls[..|calls| - 1])
    ensures var created := NewId(calls[|calls| - 1]); created.Some? ==> !CreatedIn(calls[..|calls| - 1], created.value)
  {
    var before := calls[..|calls| - 1];
    forall i, j | 0 <= i < j < |before| && NewId(before[j]).Some? ensures NewId(before[i]) != NewId(before[j]) {
      assert before[i] == calls[i] && before[j] == calls[j];
    }
    var created := NewId(calls[|calls| - 1]);
    if created.Some? {
      forall i | 0 <= i < |before| ensures !Creates(before[i], created.value) {
        assert before[i] == calls[i];
      }
    }
  }

  /** The life of a submission: it scores 100 iff acceptance was ever reported and 0 otherwise. */
  lemma {:induction false} ScoreIffAccepted(calls: seq<Call>, id: string)
    requires FreshIds(calls) && id in ExecAll(calls).store
    ensures ExecAll(calls).store[id].score == if AcceptedIn(calls, id) then 100 else 0
    ensures ExecAll(calls).store[id].submissionId == id
  {
    var n := |calls| - 1;
    AcceptedStep(calls, id);
    FreshPrefix(calls);
    StoredIffCreated(calls[..n], id);
    if id in ExecAll(calls[..n]).store {
      ScoreIffAccepted(calls[..n], id);
    } else {
      NotAcceptedBeforeCreated(calls[..n], id);
    }
  }

  lemma NotAcceptedBeforeCreated(calls: seq<Call>, id: string)
    requires !CreatedIn(calls, id)
    ensures !AcceptedIn(calls, id)
  {
  }

  /**
    What was submitted never changes: a stored submission shows the fields and the time of the last call
    that created it, whatever has been reported since.
   */
  lemma {:induction false} StoredAsSubmitted(calls: seq<Call>, id: string) returns (i: nat)
    requires id in ExecAll(calls).store
    ensures i < |calls| && Creates(calls[i], id) && forall j | i < j < |calls| :: !Creates(calls[j], id)
    ensures var s, command := ExecAll(calls).store[id], calls[i].command;
            && s.submissionId == id && s.actorId == command.actorId && s.problemId == command.problemId
            && s.contestId == command.contestId && s.languageId == command.languageId && s.createdAt == calls[i].now
  {
    var n := |calls| - 1;
    if Creates(calls[n], id) {
      i := n;
    } else {
      i := StoredAsSubmitted(calls[..n], id);
      forall j | i < j < |calls| ensures !Creates(calls[j], id) {
        assert j < n ==> calls[..n][j] == calls[j];
      }
    }
  }

  /** No call lowers a score or removes a submission. */
  lemma ScoreNeverFalls(calls: seq<Call>, id: string)
    requires calls != [] && FreshIds(calls) && id in ExecAll(calls[..|calls| - 1]).store
    ensures id in ExecAll(calls).store
    ensures ExecAll(calls).store[id].score >= ExecAll(calls[..|calls| - 1]).store[id].score
  {
    StoredIffCreated(calls[..|calls| - 1], id);
    FreshPrefix(calls);
    ScoreIffAccepted(calls[..|calls| - 1], id);
  }

  /**
    The hub and the repository know the same submissions, and the latest event shows the stored status
    exactly unless the queue refused the task and nothing was reported since; then the store says
    system error while the hub still says queued.
   */
  lemma {:induction false} HubShowsStatus(calls: seq<Call>, id: string)
    requires id in ExecAll(calls).store
    ensures id in ExecAll(calls).latest
    ensures ExecAll(calls).latest[id].status == ExecAll(calls).store[id].status <==> !LeftRefused(calls, id)
    ensures LeftRefused(calls, id) ==>
              ExecAll(calls).store[id].status == SystemError && ExecAll(calls).latest[id] == QueuedEvent(id)
    ensures LastAbout(calls, id).Some?
  {
    var n := |calls| - 1;
    StoredIffCreated(calls, id);
    StoredIffCreated(calls[..n], id);
    if !Creates(calls[n], id) && !Reports(calls[n], id) {
      HubShowsStatus(calls[..n], id);
    } else if Reports(calls[n], id) {
      assert id in ExecAll(calls[..n]).store;
    }
  }

  /** No call stores the unspecified status, the one that the two repositories treat differently. */
  lemma {:induction false} NeverUnspecified(calls: seq<Call>, id: string)
    requires id in ExecAll(calls).store
    ensures !ExecAll(calls).store[id].status.Unspecified?
  {
    var before := calls[..|calls| - 1];
    if id in ExecAll(before).store {
      NeverUnspecified(before, id);
    }
  }

  /** A refused task leaves store and hub apart: one call is enough. */
  lemma RefusalHappens(command: Command, id: string, now: Int64) returns (calls: seq<Call>)
    requires Missing(command).None?
    ensures calls == [Create(command, id, now, Refused)] && LeftRefused(calls, id)
    ensures id in ExecAll(calls).store && id in ExecAll(calls).latest
    ensures ExecAll(calls).store[id].status == SystemError && ExecAll(calls).latest[id] == QueuedEvent(id)
  {
    calls := [Create(command, id, now, Refused)];
    assert calls[..0] == [];
    assert LeftRefused(calls, id);
    StoredIffCreated(calls, id);
    assert Creates(calls[0], id);
    HubShowsStatus(calls, id);
  }
}
