# Rin OJ: verified model

A Dafny model of the parts of the Rin online judge where several steps, several parties or several
calls have to fit together, with proofs of what they promise. `dafny verify dfyconfig.toml` checks the
whole project; the verifier is the only tool it needs.

What is modelled, module by module:

- **The event hub** (`HubMachine`, `Hubs`, `Channels`). Subscribing is two atomic steps: under the lock
  a channel of eight slots is registered and the latest event copied; the copy is sent after the lock is
  released. `HubMachine` is the state machine over these steps and states its laws over whole runs. The
  class `Hub` keeps the Go fields and channels and is proved, method by method, to take exactly the
  machine's steps. `Drain` is the stream handler's receive loop.
- **The judge** (`GoJudge`, `Dispatcher`). The compile, run, compare provider, for every possible backend,
  and the dispatcher that relays its results.
- **End to end** (`EndToEnd`, `StreamEnds`). The handler, the provider with its four-slot channel, the dispatcher and
  any number of streams, in every interleaving.
- **The submission service and its stores** (`SubmissionService`, `MemoryStore`, `PostgresStore`,
  `Listing`, `Pagination`, `WalkTermination`, `Cursor`, `Json`, `Base64Url`, `Utf8`). Keyset pagination over whole walks, with writes
  in between; the two repositories against each other; the opaque cursor, decoded from anything a client
  may send.
- **Problem intake** (`PathClean`, `ZipPackage`, `PackageContents`, `InlineDraft`, `PackageFields`). Safe archive paths, the
  two package layouts, and test cases typed into a form.
- **The profile page** (`ProfileMarkdown`), **the local history** (`LocalHistory`) and **the user
  repository with its roles** (`Users`).
- `Basics`, `Ordering`, `Text` and `Submissions` hold what these share. A library sort is modelled by one
  sort, and `Ordering.SortIsCanonical` shows that any other would give the same answer.

Code that updates things in place is a class or a loop here too, proved against a specification
function; the laws are then proved about those functions. Concurrent code is a state machine over its
atomic steps.

## Findings

Places where the code does less than a reader would expect. The code is modelled as it is, and the exact
condition is proved.

- **A subscription can hang.** The snapshot is sent with a blocking send after the lock is released, and
  nobody reads the channel yet. If eight events are published in that gap, `Subscribe` never returns
  (`HubMachine.ReplayEnabledIff`, `StuckForEver`); such runs exist (`SubscribeCanHang`). For one judged
  submission the gap never sees more than three events, so there it cannot happen (`EndToEnd.NeverHalfFull`).
- **A cursor with time zero restarts the walk.** `createdAtUnix == 0` means "no cursor". A completed walk
  returns nothing twice exactly when no request used a cursor of time zero (`Pagination.CompletedWalk`,
  `StaticWalk`). Without writes, a walk with one page size comes to its end exactly when no item at a page
  boundary, with something after it, has time zero (`WalkTermination.WalkCompletesIff`); otherwise it repeats
  its pages for ever (`PagesRepeat`, `EndlessWalk`). Two submissions at time zero, one to a page, are enough
  (`Pagination.ZeroTimeLoops`, `ZeroTimeHappens`).
- **After a refused enqueue the hub disagrees with the store.** The store says system error, the hub still
  says queued, until the next report (`SubmissionService.HubShowsStatus`; one call shows it, `RefusalHappens`).
  A stream of that submission never ends by itself meanwhile (`StreamEnds.RefusedNeverEnds`).
- **The two repositories disagree on some writes.** SQL refuses the unspecified status, memory stores it; and
  saving a known id with another time or other fields overwrites it in memory only. `PostgresStore.StepAgreesIff`
  says exactly which writes keep them in step. The service never makes the others with fresh ids: it stores no
  unspecified status (`SubmissionService.NeverUnspecified`), so this concerns callers of the repositories.
- **The "role must be one of" error cannot occur.** An unknown role silently becomes student
  (`Users.RolesAreCanonical`, `UnknownRoleMeansStudent`).
- **The "missing compiled artifact" error cannot occur** (`GoJudge.MissingArtifactUnreachable`).
- **A reused user id breaks the indexes** (`Users.ReusedIdBreaksIndex`, `ReusedIdHappens`), and no later call
  repairs them (`Users.RunsStayIndexed`).

## Model

| member | source | states |
|---|---|---|
| `HubMachine.StepKeepsInv` | services/submission-service/internal/app/service.go:304-341 | every atomic step keeps: exactly the open channels are registered, each under its own id, no buffer holds more than eight events, and nothing is read while the replay is pending |
| `HubMachine.NoPanicIffUnsubscribesOnce` | services/submission-service/internal/app/service.go:315-341 | over any run, no step sends on or closes a closed channel if and only if every unsubscribe function is called at most once |
| `HubMachine.Accounting` | services/submission-service/internal/app/service.go:304-341 | at every moment of every run, what a subscriber has taken plus what waits for it is exactly its snapshot and the later publishes, each once and in sending order, minus those published while eight events were waiting |
| `HubMachine.SnapshotSentOnce` | services/submission-service/internal/app/service.go:312-317 | the snapshot is sent at most once, and has been sent exactly when `Subscribe` can return |
| `HubMachine.LatestAt` | services/submission-service/internal/app/service.go:329-331 | the hub's latest event of an id is the last one published on it in the run |
| `HubMachine.ReplayEnabledIff` | services/submission-service/internal/app/service.go:305-317 | a pending replay can be sent if and only if fewer than eight events were published since the registration |
| `HubMachine.StuckForEver` | services/submission-service/internal/app/service.go:315-317 | otherwise no continuation of the run ever sends it or reads that channel |
| `HubMachine.SubscribeCanHang` | services/submission-service/internal/app/service.go:304-317 | a run that reaches that state exists for every channel, id and event |
| `Hubs.Hub.Register` | services/submission-service/internal/app/service.go:304-313 | the locked half of subscribing is the machine's register step and hands out the snapshot it will replay |
| `Hubs.Hub.SendReplay` | services/submission-service/internal/app/service.go:315-317 | the unlocked half is the machine's replay step |
| `Hubs.Hub.Publish` | services/submission-service/internal/app/service.go:329-341 | publishing in any order over the subscriber set is the machine's publish step: the latest event is replaced, every open channel of the id gets the event unless it is full, nothing else changes |
| `Hubs.Hub.Unsubscribe` | services/submission-service/internal/app/service.go:319-324 | unsubscribing is the machine's step and closes the channel |
| `Hubs.Drain` | services/submission-service/internal/grpcserver/server.go:41-58 | the stream sends a prefix of what is buffered, in order, stopping right after a final event or a refused send, or when its context is noticed to be done, and then gives the subscription back; otherwise it has emptied the channel and waits; other channels are untouched |
| `Hubs.StreamSubmission` | services/submission-service/internal/grpcserver/server.go:39-59 | a new stream can send exactly the latest event, if there is one, before it ends or waits for more |
| `Hubs.Hub.Subscribe` | services/submission-service/internal/app/service.go:304-327 | both halves without a step in between: the new channel holds exactly the latest event, and nothing else changes |
| `HubMachine.ArrivalWasPublished` | services/submission-service/internal/app/service.go:304-341 | every event a subscriber gets was published on its id before |
| `EndToEnd.InvKept` | services/submission-service/internal/app/service.go:105-194 | every move of handler, provider, dispatcher or stream keeps: stored status, hub, pipe and each stream's buffer agree on how far the submission's script has been played |
| `EndToEnd.NeverHalfFull` | services/submission-service/internal/app/service.go:304-341 | in every interleaving no stream of the submission has more than four of its eight slots filled, so every broadcast reaches it and a pending replay can be sent |
| `EndToEnd.ExactlyOneFinal` | services/submission-service/internal/grpcserver/server.go:39-59 | a stream for which nothing is left to happen has sent exactly one final event, as its last, equal to the stored status, and has unsubscribed |
| `EndToEnd.SentSoFar` | services/submission-service/internal/grpcserver/server.go:43-57 | at every moment a stream has sent only events of its submission and nothing after a final one |
| `EndToEnd.ScriptFields` | services/submission-service/internal/app/service.go:135-191 | the events of a submission, field by field: the queued event, and then one for each result with that result's status, test case, message, time, memory and final flag |
| `EndToEnd.EveryRunEnds` | services/judge-dispatcher/internal/dispatcher/dispatcher.go:57-71 | from any moment only boundedly many moves can concern a stream |
| `StreamEnds.StreamCanEnd` | services/submission-service/internal/grpcserver/server.go:39-59 | from every moment of every run some continuation leaves nothing to do for the stream, and there it has sent exactly one final event, as its last, and has unsubscribed |
| `StreamEnds.FinalWasPublished` | services/submission-service/internal/app/service.go:304-341 | in any run of the hub a stream sees a final event only if one was published on its id |
| `StreamEnds.RefusedNeverEnds` | services/submission-service/internal/app/service.go:149-152 | while only the queued event has been published, no stream of the submission sends a final event or ends |
| `EndToEnd.StreamEndsWithVerdict` | services/judge-dispatcher/internal/dispatcher/gojudge_provider.go:226-325 | put together: the stream ends with the provider's verdict, which under go-judge is "accepted" exactly when the program compiles, runs and prints the expected tokens; the last event then carries the run's time and memory |
| `GoJudge.CompileSource` | services/judge-dispatcher/internal/dispatcher/gojudge_provider.go:327-370 | an interpreted language asks the backend nothing; otherwise exactly one request is sent, with the source, the compiler's arguments and its limits, and its first answer decides; the first artifact without a file id is the error |
| `GoJudge.RunProgram` | services/judge-dispatcher/internal/dispatcher/gojudge_provider.go:372-406 | exactly one request is sent unless a compiled file is missing: the input on standard input, the source or all compiled files copied in, the runtime's arguments and limits; its first answer is the result |
| `GoJudge.CompileFeedsRun` | services/judge-dispatcher/internal/dispatcher/gojudge_provider.go:327-384 | a compile that succeeds leaves no artifact missing and the run is given exactly the files the compile returned |
| `GoJudge.Judge` | services/judge-dispatcher/internal/dispatcher/gojudge_provider.go:226-325 | the goroutine fills its four-slot channel with the transcript without ever waiting for a reader, and closes it |
| `GoJudge.TranscriptHasOneVerdict` | services/judge-dispatcher/internal/dispatcher/gojudge_provider.go:226-325 | for every task and backend: one to three results, all for this submission, exactly one final and it is the last |
| `GoJudge.FinalStatusTable` | services/judge-dispatcher/internal/dispatcher/gojudge_provider.go:226-325 | the final status for every task and every backend behaviour |
| `GoJudge.AcceptedIff` | services/judge-dispatcher/internal/dispatcher/gojudge_provider.go:226-325 | accepted if and only if the language is supported, the compile succeeds, a sample exists, the run is "Accepted" and the output has the expected tokens |
| `GoJudge.WrongAnswerIff` | services/judge-dispatcher/internal/dispatcher/gojudge_provider.go:298-311 | wrong answer if and only if an accepted run's tokens differ |
| `GoJudge.CompileErrorIff` | services/judge-dispatcher/internal/dispatcher/gojudge_provider.go:258-268 | compile error if and only if the compiler answered something other than "Accepted" |
| `GoJudge.StatusTable` | services/judge-dispatcher/internal/dispatcher/gojudge_provider.go:502-517 | time limit, memory limit, runtime error and system error, each if and only if the backend answered what maps to it or, for the last, the task failed before the run |
| `GoJudge.VerdictFields` | services/judge-dispatcher/internal/dispatcher/gojudge_provider.go:298-323 | the final result of a program that ran, field by field: test case 1, milliseconds from nanoseconds, the run's memory, and the message that belongs to the verdict |
| `GoJudge.FailureFields` | services/judge-dispatcher/internal/dispatcher/gojudge_provider.go:230-296 | the final result otherwise: only a rejected compile has a time, a memory and the compiler's complaint |
| `GoJudge.ProgressFields` | services/judge-dispatcher/internal/dispatcher/gojudge_provider.go:242-275 | compiling is announced first and running second, neither as final |
| `GoJudge.EchoAcceptedIff` | services/judge-dispatcher/internal/dispatcher/gojudge_provider.go:226-325 | programs are given the sample's input: over any backend that accepts every command and echoes standard input, acceptance means that language and sample exist and the sample's input and output have equal tokens |
| `GoJudge.MissingArtifactUnreachable` | services/judge-dispatcher/internal/dispatcher/gojudge_provider.go:377-384 | no emitted result ever reports a missing compiled artifact |
| `GoJudge.NormalizeComparesTokens` | services/judge-dispatcher/internal/dispatcher/gojudge_provider.go:519-521 | normalised outputs are equal if and only if the outputs have equal token sequences |
| `Text.FieldsAtSpace` | services/judge-dispatcher/internal/dispatcher/gojudge_provider.go:519-521 | white space separates tokens wherever it stands, which with `Text.FieldOfToken` determines the tokens of every text |
| `Text.TrimSpaceIs` | services/user-service/internal/app/service.go:208-219 | trimming takes away exactly the white space at both ends |
| `GoJudge.SilentNeverAccepted` | services/judge-dispatcher/internal/dispatcher/gojudge_provider.go:488-521 | with the built-in samples a program that prints only white space is never accepted |
| `GoJudge.RuntimesCacheWhatTheyRun` | services/judge-dispatcher/internal/dispatcher/gojudge_provider.go:45-215 | every runtime of the table caches exactly the files it runs, only compiled languages have any, the source file is what the compiler or interpreter is told to read, and the memory and process limits by language |
| `Dispatcher.Relay` | services/judge-dispatcher/internal/dispatcher/dispatcher.go:62-71 | the loop reports a prefix of the channel, ending at the first final result or failed report |
| `Dispatcher.Dispatch` | services/judge-dispatcher/internal/dispatcher/dispatcher.go:46-72 | the argument errors, and otherwise exactly the prefix of the provider's results up to its verdict or the first failed report |
| `Dispatcher.MockJudge` | services/judge-dispatcher/internal/dispatcher/dispatcher.go:76-102 | the mock provider's two results in its two-slot channel: running, then accepted on test case 1 with 5 milliseconds and 1024 bytes |
| `Dispatcher.EmittedHasOneVerdict` | services/judge-dispatcher/internal/dispatcher/dispatcher.go:57-71 | both providers emit one to three results with one final result, the last |
| `Dispatcher.AllReported` | services/judge-dispatcher/internal/dispatcher/dispatcher.go:62-71 | when every report succeeds, everything emitted is reported |
| `Listing.ListedIsChain` | services/submission-service/internal/app/service.go:240-289 | a listing is exactly the matching submissions below the cursor, strictly descending by (createdAt, id) |
| `Listing.ListedIsUnique` | services/submission-service/internal/app/service.go:265-272 | nothing else is a strictly descending list of those submissions |
| `Listing.ListIsPage` | services/submission-service/internal/app/service.go:240-289 | every successful answer holds the newest of what matches below the cursor, newest first; 30 of it when no positive size is asked for, at most 100, otherwise as many as asked for; a next cursor exactly when more matches, and it stands for the last item |
| `Ordering.StringLessIff` | services/submission-service/internal/app/service.go:265-272 | ids are compared lexicographically: a proper prefix comes first, and otherwise the first difference decides |
| `MemoryStore.MemoryRepository.Save` | services/submission-service/internal/app/service.go:209-214 | files a fresh copy under the id; the caller's record is not shared |
| `MemoryStore.MemoryRepository.Get` | services/submission-service/internal/app/service.go:216-224 | hands out a fresh copy, or the error for an unknown id |
| `MemoryStore.MemoryRepository.UpdateStatus` | services/submission-service/internal/app/service.go:226-238 | updates the stored record in place, scores 100 on acceptance, touches no other submission, hands out a fresh copy |
| `MemoryStore.MemoryRepository.ListSubmissions` | services/submission-service/internal/app/service.go:240-289 | collecting in map order, sorting and cutting gives the specified page and next cursor, or the cursor's error; said without the listing, it is the newest matching submissions up to the limit of 30, 100 or the size asked for |
| `Pagination.WritesGrow` | services/submission-service/internal/app/service.go:209-238 | creations with new ids and status updates never remove a submission or move it in a listing |
| `Pagination.CompletedWalk` | services/submission-service/internal/app/service.go:226-289 | with such writes between the requests, a completed walk returns every matching submission present at the start, and nothing twice if and only if no request used a cursor of time zero |
| `Pagination.ExactlyOnce` | services/submission-service/internal/app/service.go:374-389 | with nonzero creation times: all of them, and nothing twice |
| `Pagination.RestIsBelow` | services/submission-service/internal/app/service.go:374-382 | what lies below the n-th item is the rest of the listing if and only if that item's time is not zero |
| `Pagination.StaticWalk` | services/submission-service/internal/app/service.go:240-289 | without writes the concatenated pages are the whole filtered listing in order, for any page sizes, if and only if no cursor of time zero was used |
| `Pagination.WalkTerminates` | services/submission-service/internal/app/service.go:359-389 | without writes and cursors of time zero, the number of submissions below the cursor strictly falls from request to request |
| `WalkTermination.WalkCompletesIff` | services/submission-service/internal/app/service.go:240-289 | without writes, a walk with a given page size comes to its end if and only if no item at a page boundary, with something after it, has time zero |
| `WalkTermination.CompletedMeansListed` | services/submission-service/internal/app/service.go:240-289 | a completed walk with one page size has returned the whole listing in order, and has used no cursor of time zero |
| `WalkTermination.PagesRepeat` | services/submission-service/internal/app/service.go:374-377 | after a cursor of time zero, on whatever page, the walk returns the same pages again from the first one on |
| `WalkTermination.EndlessWalk` | services/submission-service/internal/app/service.go:374-377 | when the condition fails there is a walk of every length, none of them at its end |
| `WalkTermination.InterleavedWalkTerminates` | services/submission-service/internal/app/service.go:226-289 | with writes between the requests: without cursors of time zero, and while what is created is not listed below the current cursor, each request leaves fewer ids to come |
| `Pagination.ZeroTimeLoops` | services/submission-service/internal/app/service.go:374-377 | a full first page ending at time zero is returned again by the next request |
| `Pagination.ZeroTimeHappens` | services/submission-service/internal/app/service.go:374-377 | a store and query for which that happens |
| `PostgresStore.PostgresRepository.ListSubmissions` | services/submission-service/internal/postgres/repository.go:134-210 | the query with limit n + 1, the row loop and the truncation give the specified SQL page; over unique ids that is the newest matching submissions of the table up to the limit of 30, 100 or the size asked for |
| `PostgresStore.SelectIsListed` | services/submission-service/internal/postgres/repository.go:151-164 | the ordered rows of the where clause are the listing of the in-memory specification |
| `PostgresStore.ListingsAgree` | services/submission-service/internal/postgres/repository.go:134-210 | over the same data both repositories return the same page, next cursor or cursor error for every query |
| `PostgresStore.PostgresRepository.Save` | services/submission-service/internal/postgres/repository.go:39-65 | insert or, on conflict, update of status and score; an unspecified status is refused; a new submission, or one that differs by status and score only, is then what the table holds for its id |
| `PostgresStore.PostgresRepository.UpdateStatus` | services/submission-service/internal/postgres/repository.go:98-132 | the update with its scoring case, or the error for an unknown id or an unspecified status; over unique ids the table holds what memory would, and the returned submission is the stored one |
| `PostgresStore.WriteAgrees` | services/submission-service/internal/postgres/repository.go:39-132 | creations with new ids and status updates keep table and memory in step, for every status that can be stored |
| `PostgresStore.StepAgreesIff` | services/submission-service/internal/postgres/repository.go:39-132 | exactly which writes keep the two in step: a status that can be stored, for a new submission or one that differs by status and score only, or an update of an unknown id |
| `PostgresStore.RepositoriesAgree` | services/submission-service/internal/postgres/repository.go:39-210 | after any sequence of creations with new ids and status updates, all with a status that can be stored, both repositories answer every listing alike |
| `PostgresStore.UnspecifiedDiverges` | services/submission-service/internal/postgres/repository.go:212-237 | an update to the unspecified status separates them |
| `PostgresStore.StatusRoundTrip` | services/submission-service/internal/postgres/repository.go:212-264 | the two status switches are inverse to each other, and only the unspecified status has no column value |
| `Cursor.RoundTrip` | services/submission-service/internal/app/cursor.go:13-36 | decoding an encoded cursor gives it back, for every 64-bit time and every id, and no encoding is the empty "no cursor" string |
| `Cursor.EncodeInjective` | services/submission-service/internal/app/cursor.go:13-19 | different cursors have different encodings |
| `Cursor.ObjectReadsBack` | services/submission-service/internal/app/cursor.go:8-35 | reading a cursor object gives its fields back, with the keys in any case |
| `Cursor.BindIff` | services/submission-service/internal/app/cursor.go:8-35 | for any members in any order, repeated, null or unknown: they can be read if and only if each is null or has its field's type, and then each field has its last value that is not null |
| `Cursor.ReadPayloadIff` | services/submission-service/internal/app/cursor.go:31-34 | which JSON texts are read as a cursor: null, which is the start, or an object all of whose members can be read |
| `Cursor.PayloadText` | services/submission-service/internal/app/cursor.go:8-14 | the JSON a cursor stands for, key by key |
| `Cursor.BadBase64Iff` | services/submission-service/internal/app/cursor.go:26-29 | a text is refused for its spelling if and only if it has a character outside the alphabet, line breaks aside, or a single character left over |
| `Json.ObjectRoundTrip` | services/submission-service/internal/app/cursor.go:14-32 | a written object of an integer and a string is read by the general JSON reader as exactly those two members |
| `Json.IntRoundTrip` | services/submission-service/internal/app/cursor.go:9-32 | every 64-bit integer reads back from its literal |
| `Json.StringRoundTrip` | services/submission-service/internal/app/cursor.go:10-32 | a JSON string literal (section 7 of RFC 8259) reads back, whatever follows it |
| `Json.ObjectText` | services/submission-service/internal/app/cursor.go:14-18 | a written object, character by character |
| `Json.EscapedIsHarmless` | services/submission-service/internal/app/cursor.go:14-18 | written strings hold no control character, no angle bracket, no ampersand and no line separator |
| `Base64Url.RoundTrip` | services/submission-service/internal/app/cursor.go:18-26 | unpadded base64url (sections 3.2 and 5 of RFC 4648) decodes to the encoded bytes |
| `Base64Url.KnownEncodings` | services/submission-service/internal/app/cursor.go:18 | test vectors of section 10 of RFC 4648 and one with the two characters of the URL alphabet |
| `Base64Url.DecodesIff` | services/submission-service/internal/app/cursor.go:26 | which texts decode |
| `Utf8.RoundTrip` | services/submission-service/internal/app/cursor.go:14-32 | UTF-8 encoding of any string decodes to it |
| `Utf8.KnownEncodings` | services/submission-service/internal/app/cursor.go:14-32 | examples of section 7 of RFC 3629, one for each length |
| `SubmissionService.Service.CreateSubmission` | services/submission-service/internal/app/service.go:105-156 | the argument errors, and otherwise: stored with the command's fields, score 0 and the time, then announced as queued, then handed to the queue as a task with the command's fields, then marked failed if the queue refuses it |
| `SubmissionService.Service.ReportJudgeResult` | services/submission-service/internal/app/service.go:167-194 | the errors, and otherwise: status stored and the result broadcast with each of its seven fields |
| `SubmissionService.Service.ListSubmissions` | services/submission-service/internal/app/service.go:162-165 | normalising the page size twice changes nothing: the answer is still the page that was asked for |
| `SubmissionService.StoredIffCreated` | services/submission-service/internal/app/service.go:129-140 | over any sequence of calls a submission is stored, and known to the hub, if and only if it was created |
| `SubmissionService.ScoreIffAccepted` | services/submission-service/internal/app/service.go:226-238 | over any sequence of calls with fresh ids the score is 100 if acceptance was ever reported and 0 otherwise |
| `SubmissionService.StoredAsSubmitted` | services/submission-service/internal/app/service.go:119-238 | over any sequence of calls a stored submission shows the actor, problem, contest, language and time of the last call that created it, whatever was reported since |
| `SubmissionService.ScoreNeverFalls` | services/submission-service/internal/app/service.go:226-238 | no call lowers a score or removes a submission |
| `SubmissionService.NeverUnspecified` | services/submission-service/internal/app/service.go:119-175 | no sequence of calls stores the unspecified status |
| `SubmissionService.RefusalHappens` | services/submission-service/internal/app/service.go:142-152 | one call that leaves store and hub apart |
| `SubmissionService.HubShowsStatus` | services/submission-service/internal/app/service.go:135-191 | the hub's latest status equals the stored one if and only if it is not the case that the queue refused the task and nothing was reported since |
| `PathClean.PathClean` | services/problem-service/internal/intake/zip.go:196-198 | the one-pass buffer algorithm of Go's `path.Clean` computes the resolution by a stack of names |
| `PathClean.AcceptedIffInside` | services/problem-service/internal/intake/zip.go:196-203 | a path is accepted if and only if its stack resolution is relative, not empty and never leaves the archive; the result then spells exactly those names, none empty, "." or ".." |
| `PathClean.NoBackslash` | services/problem-service/internal/intake/zip.go:196-203 | an accepted path has no backslash |
| `PathClean.SafeZipPathIdempotent` | services/problem-service/internal/intake/zip.go:196-203 | checking an accepted path again gives it back |
| `ZipPackage.ParseProblemPackage` | services/problem-service/internal/intake/zip.go:23-122 | the map-updating parsers of both layouts compute the parse that is defined by which slot of the package each entry claims |
| `ZipPackage.OrderIrrelevant` | services/problem-service/internal/intake/zip.go:42-181 | in both layouts, permuting the entries does not change a successful parse when no two entries claim the same slot |
| `PackageContents.StructuredPackage` | services/problem-service/internal/intake/zip.go:42-95 | when a structured archive is accepted, and what the package then holds: the manifest read from problem.json, for each locale the last statements/*.md, in strictly increasing order one sample for each name with a nonempty input and output under samples/, each text in its place, and the sorted names of the data files under tests/ |
| `PackageContents.FlatPackage` | services/problem-service/internal/intake/zip.go:124-168 | when a flat archive is accepted, and what the package then holds beside its test files: the caller's metadata with its defaults, and the last statement.md at the root |
| `PackageContents.NamesManifestIff` | services/problem-service/internal/intake/zip.go:115-122 | an entry makes the archive structured if and only if the last name of its path is problem.json, trailing slashes aside and backslashes read as slashes |
| `ZipPackage.FlatTestFiles` | services/problem-service/internal/intake/zip.go:137-180 | the flat test files are (input, output) names with equal stems in strictly increasing stem order, one pair for exactly the stems that have both kinds at the archive root |
| `ZipPackage.FlatHasTestsIffAny` | services/problem-service/internal/intake/intake.go:568-577 | a flat package passes the input-and-output check if and only if it has any test file |
| `ZipPackage.CheckInputAndOutput` | services/problem-service/internal/intake/intake.go:568-577 | the loop finds out whether some name is an input's and some name an output's |
| `ZipPackage.StemOf` | services/problem-service/internal/intake/zip.go:223-233 | a data file's stem is its name without the suffix that made it one |
| `ZipPackage.KindIsSuffix` | services/problem-service/internal/intake/zip.go:223-233 | the kind is decided by the suffix of the lower-cased name |
| `InlineDraft.Service.MaterializeCase` | services/problem-service/internal/intake/intake.go:512-546 | which error a case gives, and otherwise a key for each of its two files: the given one, or a generated one under which its text is stored |
| `InlineDraft.Service.CreateInlineDraft` | services/problem-service/internal/intake/intake.go:450-510 | the header errors, the first incomplete case, or a draft with trimmed owner and title, the statement as typed, the defaults for locale, limits and judge type, and two keys per case in order; what was written is exactly the generated keys with their texts, and each file listed is the given key, trimmed, or holds the text as it was typed |
| `InlineDraft.KeysDistinct` | services/problem-service/internal/intake/intake.go:537-539 | generated keys of one draft are pairwise distinct for any id generator, even a constant one |
| `InlineDraft.NothingOverwritten` | services/problem-service/internal/intake/intake.go:524-546 | so in the end each generated key holds the text it was made for |
| `InlineDraft.OthersUntouched` | services/problem-service/internal/intake/intake.go:541-546 | and objects under other keys are as before |
| `InlineDraft.FilesReadBack` | services/problem-service/internal/intake/intake.go:471-478 | reading the test files of a finished draft gives the texts that were typed |
| `InlineDraft.TypedCasePassesImportCheck` | services/problem-service/internal/intake/intake.go:568-577 | one case typed in full makes the draft pass the input-and-output check |
| `ProfileMarkdown.RenderProfileMarkdown` | apps/web/app/users/[username]/page.tsx:605-659 | the page is the concatenation of one string for each piece that the text parses to; each string is the piece's own tags around the inline markup of its text, and for code around a body without markup that reads as the code |
| `ProfileMarkdown.PrintDisciplined` | apps/web/app/users/[username]/page.tsx:612-654 | items occur only inside a list, and each list is closed before any other block and before the end |
| `ProfileMarkdown.PrintedLinesAreVisible` | apps/web/app/users/[username]/page.tsx:619-657 | apart from list tags, what is printed is, line by line and in order, a piece of its own with the line's text, or between fences a line of code, unterminated code included |
| `ProfileMarkdown.VisibleIsEachLine` | apps/web/app/users/[username]/page.tsx:619-657 | that is one for each line that is no fence, made of that line |
| `ProfileMarkdown.LineMeans` | apps/web/app/users/[username]/page.tsx:620-653 | which piece a line becomes by the characters it starts with, and the text the piece shows |
| `ProfileMarkdown.EveryLineOnce` | apps/web/app/users/[username]/page.tsx:619-657 | the blocks keep every line that is no fence exactly once and in order |
| `ProfileMarkdown.ListsAreMaximal` | apps/web/app/users/[username]/page.tsx:638-646 | no two lists stand next to each other |
| `ProfileMarkdown.EscapesEachOnce` | apps/web/app/users/[username]/page.tsx:588-590 | the three replacement passes escape each character once |
| `ProfileMarkdown.EscapeRoundTrip` | apps/web/app/users/[username]/page.tsx:588-590 | escaped text has no angle brackets and unescapes to the original |
| `ProfileMarkdown.CodeBlocksReadBack` | apps/web/app/users/[username]/page.tsx:622-658 | the string printed for each code block is its tags around a body that has no markup, unescapes to the joined source lines and splits back into them; an empty block reads as one empty line |
| `LocalHistory.LocalStorage.Remember` | apps/web/lib/gateway.ts:232-246 | the new entry is the merged response in front of the others, cut to sixty |
| `LocalHistory.HistoryIsMostRecent` | apps/web/lib/gateway.ts:232-246 | after any calls from empty storage the ids are distinct and are the first sixty of all ids ever remembered, by most recent call, whatever was evicted in between |
| `LocalHistory.LatestFieldsWin` | apps/web/lib/gateway.ts:238-242 | a stored response shows every field of the latest call about it |
| `LocalHistory.OlderFieldsSurvive` | apps/web/lib/gateway.ts:238-242 | right after a call for a stored id the response in front has the call's fields, keeps those stored fields that the call does not bring, and has no others |
| `LocalHistory.NewResponseIsStored` | apps/web/lib/gateway.ts:238-242 | a response that was not stored is put in front as it is |
| `LocalHistory.OthersStay` | apps/web/lib/gateway.ts:243-244 | below the limit a call leaves every other response as it was |
| `Users.MemoryRepository.CreateUser` | services/user-service/internal/app/memory.go:25-39 | refuses a taken email or lower-cased name, else updates the three maps |
| `Users.MemoryRepository.GetUserByLogin` | services/user-service/internal/app/memory.go:51-63 | with exact indexes the lookup is a scan by email first, then by lower-cased name |
| `Users.RunsStayIndexed` | services/user-service/internal/app/memory.go:25-75 | after any run from exact indexes they are exact in both directions if and only if every registration that succeeded brought a new id |
| `Users.ReusedIdBreaksIndex` | services/user-service/internal/app/memory.go:35-37 | a registration that reuses an id always breaks them |
| `Users.ReusedIdHappens` | services/user-service/internal/app/memory.go:35-37 | a directory and a user for which that happens |
| `Users.CreatedIndexedIff` | services/user-service/internal/app/memory.go:25-39 | storing a user keeps the indexes exact if and only if it is refused or its id is new |
| `Users.Service.Register` | services/user-service/internal/app/service.go:74-102 | success if and only if address, name of 3 to 32 bytes and password of at least 12 are given and neither address nor name is taken; then the trimmed, lower-cased address, the trimmed name, the hash, the locale or its default and the student role are stored, and no other account changes |
| `Users.Service.UpdateUserRole` | services/user-service/internal/app/service.go:144-162 | each error if and only if its case holds: forbidden exactly when actor and target are given and the actor is not stored as an admin; otherwise only the target's role changes, to admin, teacher or student |
| `Users.OnlyAdminsMakeAdmins` | services/user-service/internal/app/service.go:144-174 | an account becomes admin only in a role change whose actor was already stored as admin |
| `Users.NoAdminFromNothing` | services/user-service/internal/app/service.go:74-162 | from a repository without admins no run ever stores one, whatever ids the registrations bring |
| `Users.RolesAreCanonical` | services/user-service/internal/app/service.go:193-205 | normalising a role is idempotent and never empty |
| `Users.UnknownRoleMeansStudent` | services/user-service/internal/app/service.go:153-161 | an admin's change to an unknown role makes the target a student |

## Left out

- Transport: gRPC, HTTP, WebSocket, Redis, object storage and the database driver are outcomes handed to the model (an answer, an error, a refusal), not protocols.
- Dispatcher.Relay: the channel is filled and closed before the loop starts; the provider never waits for its reader, and `EndToEnd` interleaves the two with the four-slot channel.
- Cancelled contexts, crashes and redelivered queue tasks are excluded from the end-to-end results by hypothesis: there is one dispatch, every report succeeds and nobody cancels.
- EndToEnd: the streams keep reading and their sends succeed; a stream that fails or is cancelled is covered by `Hubs.Drain` alone.
- Go's memory model: each section under a lock and each channel operation is one atomic step.
- Cursor.Decode: the JSON library's limit of 10000 nested values is not modelled; decoding errors are told apart only as bad base64 or bad payload.
- Strings are sequences of Unicode characters, so ids that are not valid UTF-8 are outside the model, and lower-casing changes ASCII letters only.
- PostgresStore.SelectIsListed: SQL is filter, order and limit over a list of rows; the database is taken to order ids as Go does, the status column is an enumeration, whole-second times survive the timestamp column, and the row lookup by id (`Get`) and the `updated_at` column are not modelled.
- SubmissionService: uses the in-memory repository; the id, the time and the queue's answer are parameters.
- GoJudge.Judge: message texts are kept as what they report, without the formatting, quoting and shortening of the prose; the file-size and stdio slots of a request are constants that are not represented.
- ZipPackage.ParseProblemPackage: an archive is its list of entries; the container, the size limit of an entry and the JSON of `problem.json` are parameters.
- InlineDraft.Service.CreateInlineDraft: saving the draft, its ids, the import wizard's report and the fields copied unchanged (samples, class, reviewer note) are not modelled; the actor's path segment is a parameter.
- ProfileMarkdown.RenderProfileMarkdown: inline markup (bold, code, formulas, links) is a string function given as a parameter, because its regular expressions can misnest.
- LocalHistory.LocalStorage.Read: a stored array is taken to hold submission responses.
- Users.Service.Register: email syntax and password hashing are parameters; the creation time and the returned session are not modelled.
- The wizard flows, presigned uploads, contest pages, permissions, heat map and the merging of local with remote submissions (its fallback order reads the clock) are not part of this model.
