/** The messages of the submission API, as values. A copy of a value is the clone the services make. */
module Submissions {
  import opened Basics

  datatype Status =
    | Unspecified
    | Queued
    | Compiling
    | Running
    | Accepted
    | WrongAnswer
    | TimeLimitExceeded
    | MemoryLimitExceeded
    | RuntimeError
    | CompileError
    | SystemError

  datatype Submission = Submission(
    submissionId: string,
    actorId: string,
    problemId: string,
    contestId: string,
    languageId: string,
    status: Status,
    score: int,
    createdAt: Int64)

  /** Message texts are kept as what they report, not as formatted prose. */
  datatype Message =
    | NoMessage
    | QueuedMessage
    | UnsupportedLanguage(languageId: string)
    | Preparing(displayName: string)
    | RunningSamples(displayName: string)
    | NoSample(problemId: string)
    | Failed(reason: Failure)
    | SampleMismatch(expected: string, got: string)
    | SampleAccepted
    | Other(text: string)

  /** Errors of a call to the judge backend. */
  datatype Failure =
    | BackendError(text: string)
    | EmptyCompileResponse
    | ArtifactNotReturned(name: string)
    | ArtifactMissing(name: string)
    | EmptyRunResponse

  datatype Event = Event(
    submissionId: string,
    status: Status,
    testCaseIndex: Int32,
    message: Message,
    timeMs: Int64,
    memoryBytes: Int64,
    final: bool)

  datatype JudgeTask = JudgeTask(
    submissionId: string,
    problemId: string,
    contestId: string,
    languageId: string,
    sourceCode: string)

  datatype JudgeResult = JudgeResult(
    submissionId: string,
    status: Status,
    testCaseIndex: Int32,
    message: Message,
    timeMs: Int64,
    memoryBytes: Int64,
    final: bool)

  /** The event broadcast when a submission has been stored. */
  function QueuedEvent(id: string): Event {
    Event(id, Queued, 0, QueuedMessage, 0, 0, false)
  }

  /** The event broadcast for a judge result. */
  function ResultEvent(r: JudgeResult): Event {
    Event(r.submissionId, r.status, r.testCaseIndex, r.message, r.timeMs, r.memoryBytes, r.final)
  }
}
