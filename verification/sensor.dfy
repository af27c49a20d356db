/**
 The TypeScript sensor's batch driver. After initialising the linter it
 resolves the configured tsconfig paths, groups the input files by tsconfig,
 and walks the groups in order: the group of files matched by no tsconfig is
 skipped; for every other group each file is first checked against
 cancellation, then against the bridge's liveness, then analysed, and the
 bridge is told to drop its tsconfig state once the group is done.

 Everything outside the sensor is an oracle: the bridge's answers, the
 platform's cancellation flag and the file grouping. The driver is then a pure
 function from those oracles to an outcome and the trace of calls it made.
 */
module TypeScriptSensor {
  import opened TsConfigGraph
  import opened ConfigResolution

  datatype Option<T> = None | Some(value: T)

  /** A source file handed to the sensor by the platform. */
  datatype InputFile = InputFile(absolutePath: string, contents: string)

  /** The request the bridge receives for one file. */
  datatype AnalysisRequest = AnalysisRequest(filePath: string, fileContent: Option<string>,
                                             ignoreHeaderComments: bool, tsConfigs: seq<string>)

  /** The key of a file group: a loaded tsconfig, or the group of files that no tsconfig covers. */
  datatype BatchKey = UnmatchedConfig | ForTsConfig(tsConfig: TsConfigFile)

  /** One entry of the files-by-tsconfig map, in iteration order. */
  datatype Batch = Batch(key: BatchKey, files: seq<InputFile>)

  /** The calls the sensor makes on the bridge and on the progress report, in the order it makes them. */
  datatype Event =
    | InitLinter
    | LoadTsConfig(path: Path)
    | AnalyzeTypeScript(request: AnalysisRequest)
    | NextFile
    | NewTsConfig

  /** How `analyzeFiles` ends: a normal return or the exception it lets escape. */
  datatype Outcome = Returned | CancellationException | IllegalStateException | IOException

  /** The outcome of a run together with its trace of calls. */
  datatype Run = Run(outcome: Outcome, trace: seq<Event>)

  /**
   The environment the sensor consults. The step-indexed oracles answer for
   the `k`-th file the run reaches (counting from 0 across all groups):
   whether the sensor context reports cancellation, whether the bridge answers
   the liveness probe, and whether `analyze` fails with an I/O error for that
   file. When it fails and the file's content is to be sent,
   `failsReadingContents` says whether it was reading the content that failed,
   before any request was sent, rather than the bridge call.
   `shouldSendFileContent` and `ignoreHeaderComments` are the sensor's
   settings for building requests.
   */
  datatype Context = Context(isCancelled: nat -> bool, isAlive: nat -> bool, analysisFails: nat -> bool,
                             failsReadingContents: nat -> bool,
                             shouldSendFileContent: InputFile -> bool, ignoreHeaderComments: bool)

  /** The request for `file` under `tsConfig`: the file's path, its content only when it is to be sent, and a single tsconfig. */
  function Request(file: InputFile, tsConfig: TsConfigFile, ctx: Context): AnalysisRequest {
    AnalysisRequest(file.absolutePath,
                    if ctx.shouldSendFileContent(file) then Some(file.contents) else None,
                    ctx.ignoreHeaderComments,
                    [tsConfig.filename])
  }

  /** The gate before the `step`-th file does not let it through to a completed analysis. */
  predicate Blocked(ctx: Context, step: nat) {
    ctx.isCancelled(step) || !ctx.isAlive(step) || ctx.analysisFails(step)
  }

  /** The exception that ends a run blocked at `step`: cancellation is checked before liveness, liveness before the call. */
  function StopOutcome(ctx: Context, step: nat): Outcome {
    if ctx.isCancelled(step) then CancellationException
    else if !ctx.isAlive(step) then IllegalStateException
    else IOException
  }

  /** How many of the `n` steps from `start` pass before the first blocked one (`n` if none is blocked). */
  function FirstBlocked(ctx: Context, start: nat, n: nat): (k: nat)
    ensures k <= n
    ensures forall j :: start <= j < start + k ==> !Blocked(ctx, j)
    ensures k < n ==> Blocked(ctx, start + k)
    decreases n
  {
    if n == 0 || Blocked(ctx, start) then 0
    else 1 + FirstBlocked(ctx, start + 1, n - 1)
  }

  /** A failing `analyze` of `file` at `step` fails while reading the file's content, so no request is sent. */
  predicate ContentsUnread(file: InputFile, ctx: Context, step: nat) {
    ctx.shouldSendFileContent(file) && ctx.failsReadingContents(step)
  }

  /**
   `analyze`: read the content if it is to be sent, build the request and
   send it. An I/O error escapes, from reading the content (no request is
   sent) or from the bridge call (after the request).
   */
  function Analyze(file: InputFile, tsConfig: TsConfigFile, ctx: Context, step: nat): (r: Run)
    ensures r.outcome == IOException <==> ctx.analysisFails(step)
    ensures r.outcome == Returned <==> !ctx.analysisFails(step)
    ensures |r.trace| <= 1
    ensures r.trace == [] <==> ctx.analysisFails(step) && ContentsUnread(file, ctx, step)
  {
    var call := AnalyzeTypeScript(Request(file, tsConfig, ctx));
    if !ctx.analysisFails(step) then Run(Returned, [call])
    else if ContentsUnread(file, ctx, step) then Run(IOException, [])
    else Run(IOException, [call])
  }

  /**
   `analyzeFilesWithTsConfig`: the files of one group, in order, the first of
   them being the `step`-th file of the run. Before each file: cancellation,
   then liveness; then the analysis, then a progress tick.
   */
  function AnalyzeFilesWithTsConfig(files: seq<InputFile>, tsConfig: TsConfigFile, ctx: Context, step: nat): (r: Run)
    ensures r.outcome == Returned <==> FirstBlocked(ctx, step, |files|) == |files|
    ensures Count(r.trace, NewTsConfig) == 0
    ensures Count(r.trace, NextFile) == FirstBlocked(ctx, step, |files|)
    decreases |files|
  {
    if files == [] then Run(Returned, [])
    else if ctx.isCancelled(step) then Run(CancellationException, [])
    else if !ctx.isAlive(step) then Run(IllegalStateException, [])
    else
      var first := Analyze(files[0], tsConfig, ctx, step);
      if first.outcome != Returned then first
      else
        var rest := AnalyzeFilesWithTsConfig(files[1..], tsConfig, ctx, step + 1);
        CountAppend(first.trace + [NextFile], rest.trace, NewTsConfig);
        CountAppend(first.trace + [NextFile], rest.trace, NextFile);
        CountAppend(first.trace, [NextFile], NewTsConfig);
        CountAppend(first.trace, [NextFile], NextFile);
        Run(rest.outcome, first.trace + [NextFile] + rest.trace)
  }

  /**
   The loop of `analyzeFiles` over the groups, the first file of the first
   group being the `step`-th file of the run: skip the unmatched group, and
   after each analysed group tell the bridge a new tsconfig starts.
   */
  function AnalyzeBatches(batches: seq<Batch>, ctx: Context, step: nat): (r: Run)
    ensures Count(r.trace, NewTsConfig) <= MatchedBatchCount(batches)
    ensures r.outcome == Returned ==> Count(r.trace, NewTsConfig) == MatchedBatchCount(batches)
    decreases |batches|
  {
    if batches == [] then Run(Returned, [])
    else
      match batches[0].key
      case UnmatchedConfig => AnalyzeBatches(batches[1..], ctx, step)
      case ForTsConfig(tsConfig) =>
        var files := batches[0].files;
        var batch := AnalyzeFilesWithTsConfig(files, tsConfig, ctx, step);
        if batch.outcome != Returned then batch
        else
          var rest := AnalyzeBatches(batches[1..], ctx, step + |files|);
          CountAppend(batch.trace + [NewTsConfig], rest.trace, NewTsConfig);
          CountAppend(batch.trace, [NewTsConfig], NewTsConfig);
          Run(rest.outcome, batch.trace + [NewTsConfig] + rest.trace)
  }

  /** One `loadTsConfig` call per path, in order. */
  function LoadEvents(paths: seq<Path>): (events: seq<Event>)
    ensures |events| == |paths|
    ensures forall i :: 0 <= i < |paths| ==> events[i] == LoadTsConfig(paths[i])
  {
    seq(|paths|, i requires 0 <= i < |paths| => LoadTsConfig(paths[i]))
  }

  /**
   `analyzeFiles`: initialise the linter; with no tsconfig, return at once;
   otherwise resolve the tsconfig graph, group the files with
   `inputFilesByTsConfig` (an oracle standing for the grouping of the input
   files), and analyse the groups from the first file of the run on.
   */
  function AnalyzeFiles(ctx: Context, tsConfigs: seq<Path>, load: Path -> TsConfigFile, universe: set<Path>,
                        inputFilesByTsConfig: seq<TsConfigFile> -> seq<Batch>): (r: Run)
    requires Closed(load, universe)
    requires forall p :: p in tsConfigs ==> p in universe
    ensures |r.trace| > 0 && r.trace[0] == InitLinter
    ensures tsConfigs == [] ==> r == Run(Returned, [InitLinter])
  {
    if tsConfigs == [] then Run(Returned, [InitLinter])
    else
      var resolution := LoadTsConfigs(load, universe, tsConfigs);
      var run := AnalyzeBatches(inputFilesByTsConfig(resolution.configs), ctx, 0);
      Run(run.outcome, [InitLinter] + LoadEvents(resolution.loadCalls) + run.trace)
  }

  // Observations of a trace.

  /** How often `e` occurs in `trace`. */
  function Count(trace: seq<Event>, e: Event): nat {
    if trace == [] then 0 else (if trace[0] == e then 1 else 0) + Count(trace[1..], e)
  }

  /** The file paths of the analysis requests in `trace`, in order. */
  function AnalyzedPaths(trace: seq<Event>): seq<string> {
    if trace == [] then []
    else (if trace[0].AnalyzeTypeScript? then [trace[0].request.filePath] else []) + AnalyzedPaths(trace[1..])
  }

  /** The paths of the `loadTsConfig` calls in `trace`, in order. */
  function LoadedPaths(trace: seq<Event>): seq<Path> {
    if trace == [] then []
    else (if trace[0].LoadTsConfig? then [trace[0].path] else []) + LoadedPaths(trace[1..])
  }

  /** The paths of `files`, in order. */
  function Paths(files: seq<InputFile>): seq<string> {
    if files == [] then [] else [files[0].absolutePath] + Paths(files[1..])
  }

  /** The files of the groups that have a tsconfig, in the order they are analysed. */
  function MatchedFiles(batches: seq<Batch>): seq<InputFile> {
    if batches == [] then []
    else (if batches[0].key.UnmatchedConfig? then [] else batches[0].files) + MatchedFiles(batches[1..])
  }

  /** The number of groups that have a tsconfig. */
  function MatchedBatchCount(batches: seq<Batch>): nat {
    if batches == [] then 0
    else (if batches[0].key.UnmatchedConfig? then 0 else 1) + MatchedBatchCount(batches[1..])
  }

  lemma {:induction false} CountAppend(a: seq<Event>, b: seq<Event>, e: Event)
    ensures Count(a + b, e) == Count(a, e) + Count(b, e)
    decreases |a|
  {
    if a == [] {
      assert a + b == b;
    } else {
      assert (a + b)[1..] == a[1..] + b;
      CountAppend(a[1..], b, e);
    }
  }
}
