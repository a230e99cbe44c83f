/** The go-judge provider: compile, run, compare, and the results it emits on the way. */
module GoJudge {
  import opened Basics
  import opened Submissions
  import opened Channels
  import opened Text

  // ---------- language runtimes ----------

  datatype Runtime = Runtime(
    displayName: string,
    sourceFile: string,
    compileArgs: seq<string>,
    compileEnv: seq<string>,
    compileCached: seq<string>,
    runArgs: seq<string>,
    runEnv: seq<string>,
    runArtifacts: seq<string>,
    runMemoryLimit: Int64,
    runProcLimit: Int64)

  const MIB: int := 1024 * 1024
  const BASE_ENV := ["PATH=/usr/local/sbin:/usr/local/bin:/usr/sbin:/usr/bin:/sbin:/bin"]
  const GO_ENV := BASE_ENV + ["GO111MODULE=off", "GOCACHE=/tmp/go-cache", "GOMODCACHE=/tmp/go-mod", "HOME=/tmp"]

  function Native(name: string, source: string, compile: seq<string>, env: seq<string>, procs: Int64): Runtime {
    Runtime(name, source, compile, env, ["main"], ["main"], BASE_ENV, ["main"], 256 * MIB, procs)
  }

  function Jvm(name: string, source: string, compile: seq<string>, artifact: string, run: seq<string>): Runtime {
    Runtime(name, source, compile, BASE_ENV, [artifact], ["/usr/bin/java", "-Xss64m", "-Xmx256m"] + run, BASE_ENV,
            [artifact], 512 * MIB, 64)
  }

  function Script(name: string, source: string, interpreter: string, mebibytes: nat, procs: Int64): Runtime
    requires mebibytes <= 512
  {
    Runtime(name, source, [], BASE_ENV, [], [interpreter, source], BASE_ENV, [], mebibytes * MIB, procs)
  }

  function Gcc(tool: string, source: string, standard: string): seq<string> {
    [tool, source, "-O2", "-pipe", standard, "-o", "main"]
  }

  /** The language table with its defaults filled in. */
  const RUNTIMES: map<string, Runtime> := map[
    "c11" := Native("C11", "main.c", Gcc("/usr/bin/gcc", "main.c", "-std=c11"), BASE_ENV, 32),
    "c17" := Native("C17", "main.c", Gcc("/usr/bin/gcc", "main.c", "-std=c17"), BASE_ENV, 32),
    "cpp17" := Native("C++17", "main.cc", Gcc("/usr/bin/g++", "main.cc", "-std=c++17"), BASE_ENV, 32),
    "cpp20" := Native("C++20", "main.cc", Gcc("/usr/bin/g++", "main.cc", "-std=c++20"), BASE_ENV, 32),
    "cpp23" := Native("C++23", "main.cc", Gcc("/usr/bin/g++", "main.cc", "-std=c++23"), BASE_ENV, 32),
    "go" := Native("Go", "main.go", ["/usr/bin/go", "build", "-o", "main", "main.go"], GO_ENV, 64),
    "golang" := Native("Golang", "main.go", ["/usr/bin/go", "build", "-o", "main", "main.go"], GO_ENV, 64),
    "java" := Jvm("Java", "Main.java", ["/usr/bin/javac", "Main.java"], "Main.class", ["Main"]),
    "java17" := Jvm("Java 17", "Main.java", ["/usr/bin/javac", "Main.java"], "Main.class", ["Main"]),
    "kotlin" := Jvm("Kotlin", "Main.kt", ["/usr/bin/kotlinc", "Main.kt", "-include-runtime", "-d", "main.jar"],
                     "main.jar", ["-jar", "main.jar"]),
    "nodejs20" := Script("JavaScript (Node.js)", "main.js", "/usr/bin/node", 256, 64),
    "php83" := Script("PHP", "main.php", "/usr/bin/php", 256, 32),
    "pypy3" := Script("PyPy 3", "main.py", "/usr/bin/pypy3", 512, 32),
    "python3" := Script("Python 3", "main.py", "/usr/bin/python3", 256, 32),
    "ruby33" := Script("Ruby", "main.rb", "/usr/bin/ruby", 256, 32),
    "rust" := Native("Rust", "main.rs", ["/usr/bin/rustc", "main.rs", "-O", "-o", "main"], BASE_ENV, 32)
  ]

  datatype Sample = Sample(input: string, output: string)

  const SAMPLES: map<string, Sample> := map[
    "P1001" := Sample("1 2\n", "3\n"),
    "P1024" := Sample("5 2\n1 2 3 4 5\n1 3\n2 5\n", "6\n14\n"),
    "P1100" := Sample("7\n", "Odd\n"),
    "P1101" := Sample("4 9\n", "<\n"),
    "P1102" := Sample("10\n", "55\n"),
    "P1103" := Sample("BANANA\n", "3\n"),
    "P1104" := Sample("3 5\n", "15 16\n"),
    "P2048" := Sample("3 4\nA 100\nB 80\nA 30\nC 60\n", "A\nA\nA\nA\n"),
    "P4096" := Sample("4 5\n1 2 3\n1 3 2\n2 3 1\n2 4 2\n3 4 4\n", "5\n")
  ]

  // ---------- the backend ----------

  datatype CopyIn = Content(text: string) | FileId(id: string)

  datatype Request = Request(
    args: seq<string>,
    env: seq<string>,
    stdin: string,
    cpuLimit: Int64,
    clockLimit: Int64,
    memoryLimit: Int64,
    procLimit: Int64,
    copyIn: map<string, CopyIn>,
    copyOut: seq<string>,
    copyOutCached: seq<string>)

  datatype CommandResult = CommandResult(
    status: string,
    exitStatus: Int64,
    time: Int64,
    memory: Int64,
    files: map<string, string>,
    fileIds: map<string, string>)

  /** Whatever the backend may answer: a transport or protocol error, or a list of command results. */
  type Backend = Request -> Result<seq<CommandResult>, string>

  /** Reading a Go map of strings: absent keys give the empty string. */
  function Lookup(m: map<string, string>, key: string): string {
    if key in m then m[key] else ""
  }

  function CompileRequest(runtime: Runtime, source: string): Request {
    Request(runtime.compileArgs, runtime.compileEnv, "", 10_000_000_000, 15_000_000_000, 1024 * MIB, 128,
            map[runtime.sourceFile := Content(source)], ["stderr"], runtime.compileCached)
  }

  function RunRequest(runtime: Runtime, input: string, copyIn: map<string, CopyIn>): Request {
    Request(runtime.runArgs, runtime.runEnv, input, 1_000_000_000, 2_000_000_000, runtime.runMemoryLimit,
            runtime.runProcLimit, copyIn, ["stdout", "stderr"], [])
  }

  /** The provider with its tables. Everything below holds for any tables, and so for those above. */
  datatype Provider = Provider(runtimes: map<string, Runtime>, samples: map<string, Sample>, backend: Backend) {
    function RuntimeFor(languageId: string): Option<Runtime> {
      if languageId in runtimes then Some(runtimes[languageId]) else None
    }

    function SampleFor(problemId: string): Option<Sample> {
      if problemId in samples then Some(samples[problemId]) else None
    }
  }

  // ---------- compiling ----------

  datatype Compiled = Compiled(artifacts: map<string, string>, result: CommandResult)

  /** The first of `names` for which `ids` holds no file. */
  function FirstWithoutFile(names: seq<string>, ids: map<string, string>): Option<string> {
    if names == [] then None
    else if Lookup(ids, names[0]) == "" then Some(names[0])
    else FirstWithoutFile(names[1..], ids)
  }

  lemma {:induction false} FirstWithoutFileMeans(names: seq<string>, ids: map<string, string>)
    ensures FirstWithoutFile(names, ids).None? <==> forall n | n in names :: Lookup(ids, n) != ""
    ensures FirstWithoutFile(names, ids).Some? ==>
              exists i :: 0 <= i < |names| && names[i] == FirstWithoutFile(names, ids).value && Lookup(ids, names[i]) == ""
                          && forall j | 0 <= j < i :: Lookup(ids, names[j]) != ""
  {
    if names != [] && Lookup(ids, names[0]) != "" {
      FirstWithoutFileMeans(names[1..], ids);
      if FirstWithoutFile(names[1..], ids).Some? {
        var i :| 0 <= i < |names[1..]| && names[1..][i] == FirstWithoutFile(names[1..], ids).value
                 && Lookup(ids, names[1..][i]) == "" && forall j | 0 <= j < i :: Lookup(ids, names[1..][j]) != "";
        assert names[i + 1] == names[1..][i];
        forall j | 0 <= j < i + 1 ensures Lookup(ids, names[j]) != "" {
          assert j > 0 ==> names[j] == names[1..][j - 1];
        }
      }
    }
  }

  lemma {:induction false} FirstWithoutFileAt(names: seq<string>, ids: map<string, string>, i: nat)
    requires i < |names| && Lookup(ids, names[i]) == ""
    requires forall j | 0 <= j < i :: Lookup(ids, names[j]) != ""
    ensures FirstWithoutFile(names, ids) == Some(names[i])
  {
    if i > 0 {
      FirstWithoutFileAt(names[1..], ids, i - 1);
    }
  }

  function Compile(runtime: Runtime, source: string, backend: Backend): Result<Compiled, Failure> {
    if runtime.compileArgs == [] then Ok(Compiled(map[], CommandResult("Accepted", 0, 0, 0, map[], map[])))
    else
      match backend(CompileRequest(runtime, source))
      case Err(text) => Err(BackendError(text))
      case Ok(response) =>
        if response == [] then Err(EmptyCompileResponse)
        else if response[0].status != "Accepted" then Ok(Compiled(map[], response[0]))
        else
          match FirstWithoutFile(runtime.runArtifacts, response[0].fileIds)
          case Some(name) => Err(ArtifactNotReturned(name))
          case None => Ok(Compiled(map n | n in runtime.runArtifacts :: Lookup(response[0].fileIds, n), response[0]))
  }

  /** `asked` is the one request that is sent, if any: the source under its file name, nothing on standard input. */
  method CompileSource(runtime: Runtime, source: string, backend: Backend)
    returns (r: Result<Compiled, Failure>, ghost asked: Option<Request>)
    ensures r == Compile(runtime, source, backend)
    ensures asked.None? <==> runtime.compileArgs == []
    ensures asked.None? ==> r.Ok? && r.value.result.status == "Accepted"
    ensures asked.Some? ==>
              && asked.value.args == runtime.compileArgs && asked.value.env == runtime.compileEnv && asked.value.stdin == ""
              && asked.value.cpuLimit == 10_000_000_000 && asked.value.clockLimit == 15_000_000_000
              && asked.value.memoryLimit == 1024 * 1024 * 1024 && asked.value.procLimit == 128
              && asked.value.copyIn == map[runtime.sourceFile := Content(source)]
              && asked.value.copyOut == ["stderr"] && asked.value.copyOutCached == runtime.compileCached
    ensures asked.Some? ==>
              match backend(asked.value)
              case Err(text) => r == Err(BackendError(text))
              case Ok(response) => if response == [] then r == Err(EmptyCompileResponse)
                                   else r.Ok? ==> r.value.result == response[0]
  {
    if |runtime.compileArgs| == 0 {
      return Ok(Compiled(map[], CommandResult("Accepted", 0, 0, 0, map[], map[]))), None;
    }
    var request := CompileRequest(runtime, source);
    asked := Some(request);
    var answer := backend(request);
    if answer.Err? {
      return Err(BackendError(answer.error)), asked;
    }
    if |answer.value| == 0 {
      return Err(EmptyCompileResponse), asked;
    }
    var first := answer.value[0];
    var artifacts := map[];
    if first.status != "Accepted" {
      return Ok(Compiled(artifacts, first)), asked;
    }
    for i := 0 to |runtime.runArtifacts|
      invariant artifacts == map n | n in runtime.runArtifacts[..i] :: Lookup(first.fileIds, n)
      invariant forall j | 0 <= j < i :: Lookup(first.fileIds, runtime.runArtifacts[j]) != ""
    {
      var name := runtime.runArtifacts[i];
      var fileId := Lookup(first.fileIds, name);
      if fileId == "" {
        FirstWithoutFileAt(runtime.runArtifacts, first.fileIds, i);
        return Err(ArtifactNotReturned(name)), asked;
      }
      artifacts := artifacts[name := fileId];
      assert runtime.runArtifacts[..i + 1] == runtime.runArtifacts[..i] + [name];
    }
    FirstWithoutFileMeans(runtime.runArtifacts, first.fileIds);
    assert runtime.runArtifacts[..|runtime.runArtifacts|] == runtime.runArtifacts;
    r := Ok(Compiled(artifacts, first));
  }

  // ---------- running ----------

  function Run(runtime: Runtime, artifacts: map<string, string>, source: string, input: string, backend: Backend)
    : Result<CommandResult, Failure>
  {
    var missing := if runtime.compileArgs == [] then None else FirstWithoutFile(runtime.runArtifacts, artifacts);
    if missing.Some? then Err(ArtifactMissing(missing.value))
    else
      match backend(RunRequest(runtime, input, RunFiles(runtime, artifacts, source)))
      case Err(text) => Err(BackendError(text))
      case Ok(response) => if response == [] then Err(EmptyRunResponse) else Ok(response[0])
  }

  /** What is copied into the sandbox: the source of a script, or the compiled files. */
  function RunFiles(runtime: Runtime, artifacts: map<string, string>, source: string): map<string, CopyIn> {
    if runtime.compileArgs == [] then map[runtime.sourceFile := Content(source)]
    else map n | n in runtime.runArtifacts :: FileId(Lookup(artifacts, n))
  }

  /** `asked` is the one request that is sent, if any: the input on standard input, and what is copied into the sandbox. */
  method RunProgram(runtime: Runtime, artifacts: map<string, string>, source: string, input: string, backend: Backend)
    returns (r: Result<CommandResult, Failure>, ghost asked: Option<Request>)
    ensures r == Run(runtime, artifacts, source, input, backend)
    ensures asked.None? <==> runtime.compileArgs != [] && exists n :: n in runtime.runArtifacts && Lookup(artifacts, n) == ""
    ensures asked.None? ==> r.Err? && r.error.ArtifactMissing? && r.error.name in runtime.runArtifacts
    ensures asked.Some? ==>
              && asked.value.args == runtime.runArgs && asked.value.env == runtime.runEnv && asked.value.stdin == input
              && asked.value.cpuLimit == 1_000_000_000 && asked.value.clockLimit == 2_000_000_000
              && asked.value.memoryLimit == runtime.runMemoryLimit && asked.value.procLimit == runtime.runProcLimit
              && asked.value.copyOut == ["stdout", "stderr"] && asked.value.copyOutCached == []
    ensures asked.Some? && runtime.compileArgs == [] ==> asked.value.copyIn == map[runtime.sourceFile := Content(source)]
    ensures asked.Some? && runtime.compileArgs != [] ==>
              asked.value.copyIn == map n | n in runtime.runArtifacts :: FileId(Lookup(artifacts, n))
    ensures asked.Some? ==>
              r == match backend(asked.value)
                   case Err(text) => Err(BackendError(text))
                   case Ok(response) => if response == [] then Err(EmptyRunResponse) else Ok(response[0])
  {
    asked := None;
    var copyIn := map[];
    if |runtime.compileArgs| == 0 {
      copyIn := copyIn[runtime.sourceFile := Content(source)];
    } else {
      for i := 0 to |runtime.runArtifacts|
        invariant copyIn == map n | n in runtime.runArtifacts[..i] :: FileId(Lookup(artifacts, n))
        invariant forall j | 0 <= j < i :: Lookup(artifacts, runtime.runArtifacts[j]) != ""
      {
        var name := runtime.runArtifacts[i];
        var fileId := Lookup(artifacts, name);
        if fileId == "" {
          FirstWithoutFileAt(runtime.runArtifacts, artifacts, i);
          return Err(ArtifactMissing(name)), None;
        }
        copyIn := copyIn[name := FileId(fileId)];
        assert runtime.runArtifacts[..i + 1] == runtime.runArtifacts[..i] + [name];
      }
      FirstWithoutFileMeans(runtime.runArtifacts, artifacts);
      assert runtime.runArtifacts[..|runtime.runArtifacts|] == runtime.runArtifacts;
    }
    assert copyIn == RunFiles(runtime, artifacts, source);
    var request := RunRequest(runtime, input, copyIn);
    asked := Some(request);
    var answer := backend(request);
    if answer.Err? {
      return Err(BackendError(answer.error)), asked;
    }
    if |answer.value| == 0 {
      return Err(EmptyRunResponse), asked;
    }
    r := Ok(answer.value[0]);
  }

  // ---------- verdicts ----------

  function MapStatus(status: string): Status {
    if status == "Accepted" then Accepted
    else if status == "Time Limit Exceeded" then TimeLimitExceeded
    else if status == "Memory Limit Exceeded" then MemoryLimitExceeded
    else if status == "Non Zero Exit Status" || status == "Signalled" then RuntimeError
    else SystemError
  }

  function NormalizeOutput(output: string): string {
    Join(Fields(output), " ")
  }

  /** Normalised outputs agree exactly when the outputs consist of the same tokens. */
  lemma NormalizeComparesTokens(a: string, b: string)
    ensures NormalizeOutput(a) == NormalizeOutput(b) <==> Fields(a) == Fields(b)
  {
    FieldsAreTokens(a);
    FieldsAreTokens(b);
    FieldsOfJoin(Fields(a));
    FieldsOfJoin(Fields(b));
  }

  function NanoToMs(value: Int64): Int64 {
    if value <= 0 then 0 else value / 1_000_000
  }

  /** The first of two texts that is not blank. */
  function FirstNonEmpty(a: string, b: string): string {
    if TrimSpace(a) != "" then a else if TrimSpace(b) != "" then b else ""
  }

  function Progress(task: JudgeTask, status: Status, message: Message): JudgeResult {
    JudgeResult(task.submissionId, status, 0, message, 0, 0, false)
  }

  function Stopped(task: JudgeTask, message: Message): JudgeResult {
    JudgeResult(task.submissionId, SystemError, 0, message, 0, 0, true)
  }

  function Rejected(task: JudgeTask, result: CommandResult): JudgeResult {
    JudgeResult(task.submissionId, CompileError, 0,
                Other(FirstNonEmpty(Lookup(result.files, "stderr"), result.status)),
                NanoToMs(result.time), result.memory, true)
  }

  /** The verdict on one sample run. */
  function Compare(task: JudgeTask, sample: Sample, result: CommandResult): JudgeResult {
    var stdout := Lookup(result.files, "stdout");
    var mapped := MapStatus(result.status);
    var (status, message) :=
      if mapped != Accepted then (mapped, Other(FirstNonEmpty(Lookup(result.files, "stderr"), result.status)))
      else if NormalizeOutput(stdout) != NormalizeOutput(sample.output) then (WrongAnswer, SampleMismatch(sample.output, stdout))
      else (Accepted, SampleAccepted);
    JudgeResult(task.submissionId, status, 1, message, NanoToMs(result.time), result.memory, true)
  }

  /** Everything the provider emits for a task, in order. */
  function Transcript(task: JudgeTask, p: Provider): seq<JudgeResult> {
    match p.RuntimeFor(task.languageId)
    case None => [Stopped(task, UnsupportedLanguage(task.languageId))]
    case Some(runtime) => [Progress(task, Compiling, Preparing(runtime.displayName))] + AfterStart(task, runtime, p)
  }

  function AfterStart(task: JudgeTask, runtime: Runtime, p: Provider): seq<JudgeResult> {
    match Compile(runtime, task.sourceCode, p.backend)
    case Err(failure) => [Stopped(task, Failed(failure))]
    case Ok(compiled) =>
      if runtime.compileArgs != [] && compiled.result.status != "Accepted" then
        [Rejected(task, compiled.result)]
      else
        [Progress(task, Running, RunningSamples(runtime.displayName)), LastResult(task, runtime, compiled.artifacts, p)]
  }

  function LastResult(task: JudgeTask, runtime: Runtime, artifacts: map<string, string>, p: Provider): JudgeResult {
    match p.SampleFor(task.problemId)
    case None => Stopped(task, NoSample(task.problemId))
    case Some(sample) =>
      match Run(runtime, artifacts, task.sourceCode, sample.input, p.backend)
      case Err(failure) => Stopped(task, Failed(failure))
      case Ok(result) => Compare(task, sample, result)
  }

  method JudgeRun(task: JudgeTask, sample: Sample, result: CommandResult) returns (verdict: JudgeResult)
    ensures verdict == Compare(task, sample, result)
  {
    var status := MapStatus(result.status);
    var message := Other(FirstNonEmpty(Lookup(result.files, "stderr"), result.status));
    if status == Accepted {
      if NormalizeOutput(Lookup(result.files, "stdout")) != NormalizeOutput(sample.output) {
        status := WrongAnswer;
        message := SampleMismatch(sample.output, Lookup(result.files, "stdout"));
      } else {
        message := SampleAccepted;
      }
    }
    verdict := JudgeResult(task.submissionId, status, 1, message, NanoToMs(result.time), result.memory, true);
  }

  /**
    The provider's goroutine. Each `Send` is into a channel of capacity four that nobody needs to
    read, so none of them waits.
   */
  method Judge(task: JudgeTask, p: Provider) returns (results: Channel<JudgeResult>)
    ensures fresh(results) && results.closed && results.capacity == 4 && results.received == []
    ensures results.buffer == Transcript(task, p)
  {
    results := new Channel<JudgeResult>(4);
    var found := p.RuntimeFor(task.languageId);
    if found.None? {
      results.Send(Stopped(task, UnsupportedLanguage(task.languageId)));
      results.Close();
      return;
    }
    var runtime := found.value;
    results.Send(Progress(task, Compiling, Preparing(runtime.displayName)));
    assert Transcript(task, p) == results.buffer + AfterStart(task, runtime, p);
    var compilation;
    ghost var asked;
    compilation, asked := CompileSource(runtime, task.sourceCode, p.backend);
    if compilation.Err? {
      results.Send(Stopped(task, Failed(compilation.error)));
      results.Close();
      return;
    }
    var compiled := compilation.value;
    if |runtime.compileArgs| > 0 && compiled.result.status != "Accepted" {
      results.Send(Rejected(task, compiled.result));
      results.Close();
      return;
    }
    results.Send(Progress(task, Running, RunningSamples(runtime.displayName)));
    assert Transcript(task, p) == results.buffer + [LastResult(task, runtime, compiled.artifacts, p)];
    var sample := p.SampleFor(task.problemId);
    if sample.None? {
      results.Send(Stopped(task, NoSample(task.problemId)));
      results.Close();
      return;
    }
    var execution;
    execution, asked := RunProgram(runtime, compiled.artifacts, task.sourceCode, sample.value.input, p.backend);
    if execution.Err? {
      results.Send(Stopped(task, Failed(execution.error)));
      results.Close();
      return;
    }
    var verdict := JudgeRun(task, sample.value, execution.value);
    results.Send(verdict);
    results.Close();
  }

  // ---------- what the transcript promises ----------

  /** Between one and three results, all for this submission, with exactly one final result, at the end. */
  ghost predicate OneVerdict(id: string, results: seq<JudgeResult>) {
    && 1 <= |results| <= 3
    && forall i | 0 <= i < |results| ::
         && results[i].submissionId == id
         && (results[i].final <==> i == |results| - 1)
         && !results[i].status.Unspecified? && !results[i].status.Queued?
  }

  lemma TranscriptHasOneVerdict(task: JudgeTask, p: Provider)
    ensures OneVerdict(task.submissionId, Transcript(task, p))
  {
  }

  /** The status of the final result. */
  function FinalStatus(task: JudgeTask, p: Provider): Status {
    TranscriptHasOneVerdict(task, p);
    var results := Transcript(task, p);
    results[|results| - 1].status
  }

  /** The compile step of a language that needs one came back accepted with a file for everything that will run. */
  ghost predicate CompileSucceeds(runtime: Runtime, source: string, backend: Backend) {
    runtime.compileArgs == [] ||
    match backend(CompileRequest(runtime, source))
    case Err(_) => false
    case Ok(response) =>
      response != [] && response[0].status == "Accepted" &&
      forall n | n in runtime.runArtifacts :: Lookup(response[0].fileIds, n) != ""
  }

  /** The files the run is given: the task's source for a script, else the files its own compile step returned. */
  ghost function FilesFromCompile(runtime: Runtime, source: string, backend: Backend): map<string, CopyIn>
    requires CompileSucceeds(runtime, source, backend)
  {
    if runtime.compileArgs == [] then map[runtime.sourceFile := Content(source)]
    else
      var ids := backend(CompileRequest(runtime, source)).value[0].fileIds;
      map n | n in runtime.runArtifacts :: FileId(Lookup(ids, n))
  }

  /** The sample run of a program that compiled. */
  ghost function SampleRun(task: JudgeTask, p: Provider): Option<CommandResult>
    requires p.RuntimeFor(task.languageId).Some? && p.SampleFor(task.problemId).Some?
    requires CompileSucceeds(p.RuntimeFor(task.languageId).value, task.sourceCode, p.backend)
  {
    var runtime := p.RuntimeFor(task.languageId).value;
    var files := FilesFromCompile(runtime, task.sourceCode, p.backend);
    match p.backend(RunRequest(runtime, p.SampleFor(task.problemId).value.input, files))
    case Err(_) => None
    case Ok(response) => if response == [] then None else Some(response[0])
  }

  ghost predicate Runs(task: JudgeTask, p: Provider) {
    && p.RuntimeFor(task.languageId).Some?
    && CompileSucceeds(p.RuntimeFor(task.languageId).value, task.sourceCode, p.backend)
    && p.SampleFor(task.problemId).Some?
    && SampleRun(task, p).Some?
  }

  /** A successful compile leaves nothing missing for the run, which is given exactly the compiled files. */
  lemma CompileFeedsRun(runtime: Runtime, source: string, input: string, backend: Backend)
    ensures match Compile(runtime, source, backend)
            case Err(_) => !CompileSucceeds(runtime, source, backend)
            case Ok(compiled) =>
              && (CompileSucceeds(runtime, source, backend) <==>
                    runtime.compileArgs == [] || compiled.result.status == "Accepted")
              && (CompileSucceeds(runtime, source, backend) ==>
                    && RunFiles(runtime, compiled.artifacts, source) == FilesFromCompile(runtime, source, backend)
                    && forall name :: Run(runtime, compiled.artifacts, source, input, backend) != Err(ArtifactMissing(name)))
  {
    if runtime.compileArgs != [] && backend(CompileRequest(runtime, source)).Ok? {
      var response := backend(CompileRequest(runtime, source)).value;
      if response != [] {
        FirstWithoutFileMeans(runtime.runArtifacts, response[0].fileIds);
        var artifacts := map n | n in runtime.runArtifacts :: Lookup(response[0].fileIds, n);
        FirstWithoutFileMeans(runtime.runArtifacts, artifacts);
      }
    }
  }

  /** The compiler answered, and its answer is not "Accepted". */
  ghost predicate CompileRejected(task: JudgeTask, p: Provider) {
    && p.RuntimeFor(task.languageId).Some?
    && var runtime := p.RuntimeFor(task.languageId).value;
       && runtime.compileArgs != []
       && var answer := p.backend(CompileRequest(runtime, task.sourceCode));
          answer.Ok? && answer.value != [] && answer.value[0].status != "Accepted"
  }

  predicate Unusual(status: Status) {
    status.TimeLimitExceeded? || status.MemoryLimitExceeded? || status.RuntimeError? || status.SystemError?
  }

  lemma CompareStatus(task: JudgeTask, sample: Sample, result: CommandResult)
    ensures Compare(task, sample, result).status
         == if result.status != "Accepted" then MapStatus(result.status)
            else if Fields(Lookup(result.files, "stdout")) == Fields(sample.output) then Accepted
            else WrongAnswer
    ensures result.status != "Accepted" ==> Unusual(MapStatus(result.status))
  {
    NormalizeComparesTokens(Lookup(result.files, "stdout"), sample.output);
  }

  /** The final result, for every backend behaviour. */
  lemma LastOfTranscript(task: JudgeTask, p: Provider)
    ensures var results := Transcript(task, p);
            if Runs(task, p) then
              |results| == 3 && results[2] == Compare(task, p.SampleFor(task.problemId).value, SampleRun(task, p).value)
            else
              && results != []
              && results[|results| - 1].status == if CompileRejected(task, p) then CompileError else SystemError
    ensures Runs(task, p) ==> !CompileRejected(task, p)
  {
    if p.RuntimeFor(task.languageId).Some? {
      var runtime := p.RuntimeFor(task.languageId).value;
      var input := if p.SampleFor(task.problemId).Some? then p.SampleFor(task.problemId).value.input else "";
      CompileFeedsRun(runtime, task.sourceCode, input, p.backend);
    }
  }

  /**
    Verdict exactness: a submission is accepted iff its language is supported, it compiles, its problem
    has a sample, the run is accepted, and the program printed the expected tokens.
   */
  lemma AcceptedIff(task: JudgeTask, p: Provider)
    ensures FinalStatus(task, p) == Accepted
       <==> && Runs(task, p)
            && SampleRun(task, p).value.status == "Accepted"
            && Fields(Lookup(SampleRun(task, p).value.files, "stdout")) == Fields(p.SampleFor(task.problemId).value.output)
  {
    FinalStatusTable(task, p);
  }

  /** The final status for every task and every backend behaviour. */
  lemma FinalStatusTable(task: JudgeTask, p: Provider)
    ensures !Runs(task, p) ==> FinalStatus(task, p) == if CompileRejected(task, p) then CompileError else SystemError
    ensures Runs(task, p) ==>
              var run := SampleRun(task, p).value;
              && !CompileRejected(task, p)
              && FinalStatus(task, p)
              == (if run.status != "Accepted" then MapStatus(run.status)
                  else if Fields(Lookup(run.files, "stdout")) == Fields(p.SampleFor(task.problemId).value.output) then Accepted
                  else WrongAnswer)
              && (run.status != "Accepted" ==> Unusual(MapStatus(run.status)))
  {
    LastOfTranscript(task, p);
    if Runs(task, p) {
      CompareStatus(task, p.SampleFor(task.problemId).value, SampleRun(task, p).value);
    }
  }

  /** A wrong answer is an accepted run whose tokens differ from the expected ones. */
  lemma WrongAnswerIff(task: JudgeTask, p: Provider)
    ensures FinalStatus(task, p) == WrongAnswer
       <==> && Runs(task, p)
            && SampleRun(task, p).value.status == "Accepted"
            && Fields(Lookup(SampleRun(task, p).value.files, "stdout")) != Fields(p.SampleFor(task.problemId).value.output)
  {
    FinalStatusTable(task, p);
  }

  /** A compile error is a compile answer that is not "Accepted", whatever the problem and the rest of the answer. */
  lemma CompileErrorIff(task: JudgeTask, p: Provider)
    ensures FinalStatus(task, p) == CompileError <==> CompileRejected(task, p)
  {
    FinalStatusTable(task, p);
  }

  /** Which answers of the backend give the other verdicts on a program that compiled. */
  lemma StatusTable(task: JudgeTask, p: Provider)
    ensures var status := if Runs(task, p) then SampleRun(task, p).value.status else "";
            && (FinalStatus(task, p) == TimeLimitExceeded <==> Runs(task, p) && status == "Time Limit Exceeded")
            && (FinalStatus(task, p) == MemoryLimitExceeded <==> Runs(task, p) && status == "Memory Limit Exceeded")
            && (FinalStatus(task, p) == RuntimeError <==>
                  Runs(task, p) && (status == "Non Zero Exit Status" || status == "Signalled"))
            && (FinalStatus(task, p) == SystemError <==>
                  if Runs(task, p) then
                    status !in {"Accepted", "Time Limit Exceeded", "Memory Limit Exceeded", "Non Zero Exit Status", "Signalled"}
                  else !CompileRejected(task, p))
  {
    FinalStatusTable(task, p);
  }

  /** The final result of a program that ran, field by field. */
  lemma VerdictFields(task: JudgeTask, p: Provider)
    requires Runs(task, p)
    ensures var results, run, sample := Transcript(task, p), SampleRun(task, p).value, p.SampleFor(task.problemId).value;
            && |results| == 3
            && results[2].submissionId == task.submissionId && results[2].final
            && results[2].status == FinalStatus(task, p)
            && results[2].testCaseIndex == 1
            && results[2].timeMs == (if run.time <= 0 then 0 else run.time / 1_000_000)
            && results[2].memoryBytes == run.memory
            && results[2].message == match FinalStatus(task, p)
                                     case Accepted => SampleAccepted
                                     case WrongAnswer => SampleMismatch(sample.output, Lookup(run.files, "stdout"))
                                     case _ => Other(Complaint(run))
  {
    LastOfTranscript(task, p);
    FinalStatusTable(task, p);
    NormalizeComparesTokens(Lookup(SampleRun(task, p).value.files, "stdout"), p.SampleFor(task.problemId).value.output);
  }

  /** What a result says when the command failed: its error output, or its status if that is blank. */
  ghost function Complaint(result: CommandResult): (text: string)
    ensures TrimSpace(Lookup(result.files, "stderr")) != "" ==> text == Lookup(result.files, "stderr")
    ensures TrimSpace(Lookup(result.files, "stderr")) == "" && TrimSpace(result.status) != "" ==> text == result.status
    ensures TrimSpace(Lookup(result.files, "stderr")) == "" && TrimSpace(result.status) == "" ==> text == ""
  {
    FirstNonEmpty(Lookup(result.files, "stderr"), result.status)
  }

  /** The final result of a program that did not run, field by field: only a rejected compile has a time and a memory. */
  lemma FailureFields(task: JudgeTask, p: Provider)
    requires !Runs(task, p)
    ensures var results := Transcript(task, p);
            var last := results[|results| - 1];
            && last.submissionId == task.submissionId && last.final && last.testCaseIndex == 0
            && (CompileRejected(task, p) ==>
                  var compile := p.backend(CompileRequest(p.RuntimeFor(task.languageId).value, task.sourceCode)).value[0];
                  && last.message == Other(Complaint(compile))
                  && last.timeMs == (if compile.time <= 0 then 0 else compile.time / 1_000_000)
                  && last.memoryBytes == compile.memory)
            && (!CompileRejected(task, p) ==> last.timeMs == 0 && last.memoryBytes == 0)
            && (p.RuntimeFor(task.languageId).None? ==> last.message == UnsupportedLanguage(task.languageId))
            && (p.RuntimeFor(task.languageId).Some? && !CompileRejected(task, p) ==>
                  if !CompileSucceeds(p.RuntimeFor(task.languageId).value, task.sourceCode, p.backend) then last.message.Failed?
                  else if p.SampleFor(task.problemId).None? then last.message == NoSample(task.problemId)
                  else last.message.Failed? && (last.message.reason.BackendError? || last.message.reason == EmptyRunResponse))
  {
    LastOfTranscript(task, p);
    if p.RuntimeFor(task.languageId).Some? {
      CompileFeedsRun(p.RuntimeFor(task.languageId).value, task.sourceCode, "", p.backend);
    }
  }

  /** The results before the final one: compiling is announced first, and running before the one sample is run. */
  lemma ProgressFields(task: JudgeTask, p: Provider, i: nat)
    requires i < |Transcript(task, p)| - 1
    ensures var r := Transcript(task, p)[i];
            && p.RuntimeFor(task.languageId).Some?
            && r.submissionId == task.submissionId && !r.final && r.testCaseIndex == 0 && r.timeMs == 0 && r.memoryBytes == 0
            && r.status == (if i == 0 then Compiling else Running)
            && var name := p.RuntimeFor(task.languageId).value.displayName;
               r.message == if i == 0 then Preparing(name) else RunningSamples(name)
  {
    LastOfTranscript(task, p);
  }

  /** A backend that accepts every command, caches what it is asked to, and prints what it is given to read. */
  ghost predicate Echoes(backend: Backend) {
    forall request ::
      var answer := backend(request);
      && answer.Ok? && answer.value != [] && answer.value[0].status == "Accepted"
      && (forall n | n in request.copyOutCached :: Lookup(answer.value[0].fileIds, n) != "")
      && ("stdout" in request.copyOut ==> Lookup(answer.value[0].files, "stdout") == request.stdin)
  }

  /** Programs are given the sample's input: one that echoes it is accepted iff that is what the sample expects. */
  lemma EchoAcceptedIff(task: JudgeTask, p: Provider)
    requires p.runtimes == RUNTIMES && Echoes(p.backend)
    ensures FinalStatus(task, p) == Accepted
       <==> && task.languageId in p.runtimes && task.problemId in p.samples
            && Fields(p.samples[task.problemId].input) == Fields(p.samples[task.problemId].output)
  {
    AcceptedIff(task, p);
    if task.languageId in p.runtimes {
      var runtime := p.runtimes[task.languageId];
      RuntimesCacheWhatTheyRun(task.languageId);
      EchoCompiles(runtime, task.sourceCode, p.backend);
      if task.problemId in p.samples {
        var files := FilesFromCompile(runtime, task.sourceCode, p.backend);
        assert p.backend(RunRequest(runtime, p.samples[task.problemId].input, files)).Ok?;
        assert "stdout" in RunRequest(runtime, p.samples[task.problemId].input, files).copyOut;
      }
    }
  }

  lemma EchoCompiles(runtime: Runtime, source: string, backend: Backend)
    requires Echoes(backend) && runtime.runArtifacts == runtime.compileCached
    ensures CompileSucceeds(runtime, source, backend)
  {
    assert backend(CompileRequest(runtime, source)).Ok?;
  }

  /** No result ever reports an artifact that is missing after an accepted compile. */
  lemma MissingArtifactUnreachable(task: JudgeTask, p: Provider)
    ensures forall r, name | r in Transcript(task, p) :: r.message != Failed(ArtifactMissing(name))
  {
    if p.RuntimeFor(task.languageId).Some? {
      StartedNeverMissing(task, p.RuntimeFor(task.languageId).value, p);
    }
  }

  lemma StartedNeverMissing(task: JudgeTask, runtime: Runtime, p: Provider)
    ensures forall r, name | r in AfterStart(task, runtime, p) :: r.message != Failed(ArtifactMissing(name))
  {
    var input := if p.SampleFor(task.problemId).Some? then p.SampleFor(task.problemId).value.input else "";
    CompileFeedsRun(runtime, task.sourceCode, input, p.backend);
  }

  /**
    Every runtime of the table caches exactly the files it will run, and only compiled languages have any. The
    source file is what the compiler reads, or what the interpreter of a script does. Virtual machines and PyPy
    may use twice the memory of the others.
   */
  lemma RuntimesCacheWhatTheyRun(languageId: string)
    requires languageId in RUNTIMES
    ensures var runtime := RUNTIMES[languageId];
              && runtime.runArtifacts == runtime.compileCached
              && (runtime.compileArgs == [] <==> runtime.runArtifacts == [])
              && runtime.sourceFile != "" && runtime.runArgs != []
              && runtime.runMemoryLimit == (if languageId in {"java", "java17", "kotlin", "pypy3"} then 512 else 256) * 1_048_576
              && runtime.runProcLimit
              == (if languageId in {"go", "golang", "java", "java17", "kotlin", "nodejs20"} then 64 else 32)
              && runtime.sourceFile in (if runtime.compileArgs == [] then runtime.runArgs else runtime.compileArgs)
  {
  }

  lemma SamplesExpectTokens(problemId: string)
    requires problemId in SAMPLES
    ensures Fields(SAMPLES[problemId].output) != []
  {
    var output := SAMPLES[problemId].output;
    assert output != "" && !IsSpace(output[0]);
  }

  /** With the built-in samples a program that prints nothing but white space is never accepted. */
  lemma SilentNeverAccepted(task: JudgeTask, p: Provider)
    requires p.samples == SAMPLES && FinalStatus(task, p) == Accepted
    ensures Runs(task, p) && Fields(Lookup(SampleRun(task, p).value.files, "stdout")) != []
  {
    AcceptedIff(task, p);
    SamplesExpectTokens(task.problemId);
  }
}
