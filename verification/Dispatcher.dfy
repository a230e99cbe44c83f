/** The dispatcher: pulls results off a provider's channel and reports them until the verdict. */
module Dispatcher {
  import opened Basics
  import opened Submissions
  import opened Channels
  import GoJudge

  datatype Judge = Remote(provider: GoJudge.Provider) | Mock

  datatype DispatchError = MissingSubmissionId | MissingProvider | MissingReporter | ReportFailed

  function MockTranscript(task: JudgeTask): seq<JudgeResult> {
    [JudgeResult(task.submissionId, Running, 0, Other("mock judge running"), 0, 0, false),
     JudgeResult(task.submissionId, Accepted, 1, Other("mock accepted"), 5, 1024, true)]
  }

  /** The mock provider's goroutine: two sends into a channel of capacity two. */
  method MockJudge(task: JudgeTask) returns (results: Channel<JudgeResult>)
    ensures fresh(results) && results.closed && results.capacity == 2 && results.received == []
    ensures results.buffer == MockTranscript(task) && |results.buffer| == 2
    ensures results.buffer[0].status == Running && !results.buffer[0].final
    ensures results.buffer[1].status == Accepted && results.buffer[1].final && results.buffer[1].testCaseIndex == 1
    ensures results.buffer[1].timeMs == 5 && results.buffer[1].memoryBytes == 1024
  {
    results := new Channel<JudgeResult>(2);
    results.Send(JudgeResult(task.submissionId, Running, 0, Other("mock judge running"), 0, 0, false));
    results.Send(JudgeResult(task.submissionId, Accepted, 1, Other("mock accepted"), 5, 1024, true));
    results.Close();
  }

  /** What the provider emits for a task. */
  function Emitted(judge: Judge, task: JudgeTask): seq<JudgeResult> {
    match judge
    case Remote(provider) => GoJudge.Transcript(task, provider)
    case Mock => MockTranscript(task)
  }

  /** `n` reports are made: the loop stops right after the first final result or failed report. */
  ghost predicate StopsAfter(emitted: seq<JudgeResult>, reportFails: nat -> bool, n: nat) {
    && 0 < n <= |emitted|
    && (emitted[n - 1].final || reportFails(n - 1))
    && forall i | 0 <= i < n - 1 :: !emitted[i].final && !reportFails(i)
  }

  /** The loop of `Dispatch` over a channel that the provider has filled and closed. */
  method Relay(results: Channel<JudgeResult>, reportFails: nat -> bool)
    returns (reported: seq<JudgeResult>, error: Option<DispatchError>)
    requires results.closed
    modifies results`buffer, results`received
    ensures reported + results.buffer == old(results.buffer)
    ensures if StopsAfter(old(results.buffer), reportFails, |reported|) then
              error == if reportFails(|reported| - 1) then Some(ReportFailed) else None
            else
              && error.None? && results.buffer == []
              && forall i | 0 <= i < |reported| :: !reported[i].final && !reportFails(i)
  {
    ghost var emitted := results.buffer;
    reported, error := [], None;
    while results.buffer != []
      invariant reported + results.buffer == emitted
      invariant forall i | 0 <= i < |reported| :: !reported[i].final && !reportFails(i)
      decreases |results.buffer|
    {
      var result := results.Receive();
      reported := reported + [result];
      if reportFails(|reported| - 1) {
        return reported, Some(ReportFailed);
      }
      if result.final {
        return reported, None;
      }
    }
  }

  /**
    `Dispatch`. The provider never waits for its reader, so running it to its end first loses no
    interleaving. `reportFails(i)` tells whether the i-th report is refused.
   */
  method Dispatch(task: JudgeTask, judge: Option<Judge>, hasReporter: bool, reportFails: nat -> bool)
    returns (reported: seq<JudgeResult>, error: Option<DispatchError>)
    ensures task.submissionId == "" ==> error == Some(MissingSubmissionId)
    ensures task.submissionId != "" && judge.None? ==> error == Some(MissingProvider)
    ensures task.submissionId != "" && judge.Some? && !hasReporter ==> error == Some(MissingReporter)
    ensures task.submissionId == "" || judge.None? || !hasReporter ==> reported == []
    ensures task.submissionId != "" && judge.Some? && hasReporter ==>
              && StopsAfter(Emitted(judge.value, task), reportFails, |reported|)
              && reported == Emitted(judge.value, task)[..|reported|]
              && error == if reportFails(|reported| - 1) then Some(ReportFailed) else None
  {
    reported, error := [], None;
    if task.submissionId == "" {
      return [], Some(MissingSubmissionId);
    }
    if judge.None? {
      return [], Some(MissingProvider);
    }
    if !hasReporter {
      return [], Some(MissingReporter);
    }
    var results;
    match judge.value {
      case Remote(provider) => results := GoJudge.Judge(task, provider);
      case Mock => results := MockJudge(task);
    }
    EmittedHasOneVerdict(judge.value, task);
    reported, error := Relay(results, reportFails);
  }

  lemma EmittedHasOneVerdict(judge: Judge, task: JudgeTask)
    ensures GoJudge.OneVerdict(task.submissionId, Emitted(judge, task))
  {
    if judge.Remote? {
      GoJudge.TranscriptHasOneVerdict(task, judge.provider);
    }
  }

  /** When every report succeeds, everything the provider emits is reported, its verdict last. */
  lemma AllReported(judge: Judge, task: JudgeTask, reportFails: nat -> bool, n: nat)
    requires StopsAfter(Emitted(judge, task), reportFails, n)
    requires forall i :: !reportFails(i)
    ensures n == |Emitted(judge, task)|
  {
    EmittedHasOneVerdict(judge, task);
  }
}
