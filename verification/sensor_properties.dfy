/**
 What the batch driver guarantees, for every answer of its oracles: the run
 stops at the first file whose gate does not let it through, with the
 exception the order of the checks dictates, and its trace is the reference
 trace of `ReferenceTraces` up to that file: every file before it analysed
 and then ticked, every group before it closed by one `newTsConfig`, and the
 blocked file's request only when the bridge call itself failed. Only groups
 with a tsconfig are analysed, and every request names the group's tsconfig
 alone.
 */
module SensorProperties {
  import opened Seqs
  import opened TsConfigGraph
  import opened ConfigResolution
  import opened TypeScriptSensor
  import opened ReferenceTraces

  // One file.

  /**
   `analyze` sends at most one request, and only for its own file: the
   file's path, its content exactly when the content is to be sent, the
   header-comment setting and the group's tsconfig alone. The request is
   sent whenever the call returns, and also when the bridge call fails after
   the content was read; it fails exactly when the oracle says so.
   */
  lemma AnalyzeSendsOneRequest(file: InputFile, tsConfig: TsConfigFile, ctx: Context, step: nat)
    ensures var r := Analyze(file, tsConfig, ctx, step);
            && (r.outcome == IOException <==> ctx.analysisFails(step))
            && (r.outcome == Returned <==> !ctx.analysisFails(step))
            && (r.trace == [] <==> ctx.analysisFails(step) && ContentsUnread(file, ctx, step))
            && (r.trace != [] ==> |r.trace| == 1 && r.trace[0].AnalyzeTypeScript?)
            && forall e :: e in r.trace ==>
                 && e.AnalyzeTypeScript?
                 && e.request.filePath == file.absolutePath
                 && (e.request.fileContent.Some? <==> ctx.shouldSendFileContent(file))
                 && (e.request.fileContent.Some? ==> e.request.fileContent.value == file.contents)
                 && e.request.ignoreHeaderComments == ctx.ignoreHeaderComments
                 && e.request.tsConfigs == [tsConfig.filename]
  {
  }

  // One group.

  /**
   A group stops at its first blocked file, with the exception the scan of its
   files gives: cancellation is checked before liveness and liveness before
   the analysis. Its trace is the files before that one, each request
   followed by its tick, then the blocked file's request when the bridge call
   itself failed.
   */
  lemma BatchStopsAtFirstBlockedFile(files: seq<InputFile>, tsConfig: TsConfigFile, ctx: Context, step: nat)
    ensures var r := AnalyzeFilesWithTsConfig(files, tsConfig, ctx, step);
            var k := FirstBlocked(ctx, step, |files|);
            && r.outcome == ScanOutcome(ctx, step, |files|)
            && r.trace == FileEvents(files[..k], tsConfig, ctx)
                          + (if k < |files| then BlockedFileEvents(files[k], tsConfig, ctx, step + k) else [])
  {
    GroupRunIsGroupTrace(files, tsConfig, ctx, step);
    GroupTraceIsPrefix(files, tsConfig, ctx, step);
  }

  /** The run of a group has the outcome of its first blocked file and the group's reference trace. */
  lemma GroupRunIsGroupTrace(files: seq<InputFile>, tsConfig: TsConfigFile, ctx: Context, step: nat)
    ensures var r := AnalyzeFilesWithTsConfig(files, tsConfig, ctx, step);
            && r.outcome == ScanOutcome(ctx, step, |files|)
            && r.trace == GroupTrace(files, tsConfig, ctx, step)
  {
    GroupOutcome(files, tsConfig, ctx, step);
    GroupRunTrace(files, tsConfig, ctx, step);
  }

  /** A group ends with the outcome of the scan over its files. */
  lemma {:induction false} GroupOutcome(files: seq<InputFile>, tsConfig: TsConfigFile, ctx: Context, step: nat)
    ensures AnalyzeFilesWithTsConfig(files, tsConfig, ctx, step).outcome == ScanOutcome(ctx, step, |files|)
    decreases |files|
  {
    if files != [] && !Blocked(ctx, step) {
      GroupOutcome(files[1..], tsConfig, ctx, step + 1);
      PassedFirstFileShape(files, tsConfig, ctx, step);
    }
  }

  /** A group's trace is its reference trace. */
  lemma {:induction false} GroupRunTrace(files: seq<InputFile>, tsConfig: TsConfigFile, ctx: Context, step: nat)
    ensures AnalyzeFilesWithTsConfig(files, tsConfig, ctx, step).trace == GroupTrace(files, tsConfig, ctx, step)
    decreases |files|
  {
    if files != [] && !Blocked(ctx, step) {
      GroupRunTrace(files[1..], tsConfig, ctx, step + 1);
      PassedFirstFileShape(files, tsConfig, ctx, step);
    }
  }

  /** The run and the scan of a group whose first file passes its gate, one file at a time. */
  lemma PassedFirstFileShape(files: seq<InputFile>, tsConfig: TsConfigFile, ctx: Context, step: nat)
    requires files != [] && !Blocked(ctx, step)
    ensures var rest := AnalyzeFilesWithTsConfig(files[1..], tsConfig, ctx, step + 1);
            AnalyzeFilesWithTsConfig(files, tsConfig, ctx, step)
            == Run(rest.outcome, [AnalyzeTypeScript(Request(files[0], tsConfig, ctx)), NextFile] + rest.trace)
    ensures FirstBlocked(ctx, step, |files|) == 1 + FirstBlocked(ctx, step + 1, |files| - 1)
  {
  }

  /**
   If the `k`-th file of a group is the first at which cancellation is seen,
   the group ends in a `CancellationException` with exactly the `k` files
   before it analysed and ticked, whatever the liveness probe would say.
   */
  lemma CancelledBeforeFile(files: seq<InputFile>, tsConfig: TsConfigFile, ctx: Context, step: nat, k: nat)
    requires k < |files|
    requires forall j :: step <= j < step + k ==> !Blocked(ctx, j)
    requires ctx.isCancelled(step + k)
    ensures var r := AnalyzeFilesWithTsConfig(files, tsConfig, ctx, step);
            && r.outcome == CancellationException
            && r.trace == FileEvents(files[..k], tsConfig, ctx)
            && AnalyzedPaths(r.trace) == Paths(files[..k])
            && Count(r.trace, NextFile) == k
  {
    StopsBeforeFile(files, tsConfig, ctx, step, k);
  }

  /**
   If the bridge is first found dead before the `k`-th file of a group, and
   the run is not cancelled there, the group ends in an
   `IllegalStateException` with exactly the `k` files before it analysed and ticked.
   */
  lemma NotAliveBeforeFile(files: seq<InputFile>, tsConfig: TsConfigFile, ctx: Context, step: nat, k: nat)
    requires k < |files|
    requires forall j :: step <= j < step + k ==> !Blocked(ctx, j)
    requires !ctx.isCancelled(step + k) && !ctx.isAlive(step + k)
    ensures var r := AnalyzeFilesWithTsConfig(files, tsConfig, ctx, step);
            && r.outcome == IllegalStateException
            && r.trace == FileEvents(files[..k], tsConfig, ctx)
            && AnalyzedPaths(r.trace) == Paths(files[..k])
            && Count(r.trace, NextFile) == k
  {
    StopsBeforeFile(files, tsConfig, ctx, step, k);
  }

  /**
   If `analyze` first fails at the `k`-th file of a group, the group ends in
   an `IOException` after the `k` files before it were analysed and ticked;
   the failing file's request was sent unless reading its content failed.
   */
  lemma AnalysisFailsAtFile(files: seq<InputFile>, tsConfig: TsConfigFile, ctx: Context, step: nat, k: nat)
    requires k < |files|
    requires forall j :: step <= j < step + k ==> !Blocked(ctx, j)
    requires !ctx.isCancelled(step + k) && ctx.isAlive(step + k) && ctx.analysisFails(step + k)
    ensures var r := AnalyzeFilesWithTsConfig(files, tsConfig, ctx, step);
            && r.outcome == IOException
            && r.trace == FileEvents(files[..k], tsConfig, ctx)
                          + (if ContentsUnread(files[k], ctx, step + k) then []
                             else [AnalyzeTypeScript(Request(files[k], tsConfig, ctx))])
            && Count(r.trace, NextFile) == k
  {
    StopsBeforeFile(files, tsConfig, ctx, step, k);
  }

  /** A group stops at the file `k` when `k` is the first blocked one. */
  lemma StopsBeforeFile(files: seq<InputFile>, tsConfig: TsConfigFile, ctx: Context, step: nat, k: nat)
    requires k < |files|
    requires forall j :: step <= j < step + k ==> !Blocked(ctx, j)
    requires Blocked(ctx, step + k)
    ensures var r := AnalyzeFilesWithTsConfig(files, tsConfig, ctx, step);
            && r.outcome == StopOutcome(ctx, step + k)
            && r.trace == FileEvents(files[..k], tsConfig, ctx) + BlockedFileEvents(files[k], tsConfig, ctx, step + k)
            && Count(r.trace, NextFile) == k
            && (StopOutcome(ctx, step + k) != IOException ==>
                  r.trace == FileEvents(files[..k], tsConfig, ctx) && AnalyzedPaths(r.trace) == Paths(files[..k]))
  {
    FirstBlockedUnique(ctx, step, |files|, k);
    ScanOutcomeIsFirstBlocked(ctx, step, |files|);
    BatchStopsAtFirstBlockedFile(files, tsConfig, ctx, step);
    StoppedGroupObservations(files, tsConfig, ctx, step + k, k);
  }

  /** Every request of a group is built from one of its files and names the group's tsconfig alone. */
  lemma {:induction false} BatchRequestsNameTheirTsConfig(files: seq<InputFile>, tsConfig: TsConfigFile, ctx: Context, step: nat)
    ensures var r := AnalyzeFilesWithTsConfig(files, tsConfig, ctx, step);
            forall e :: e in r.trace && e.AnalyzeTypeScript? ==>
              && e.request.tsConfigs == [tsConfig.filename]
              && exists f :: f in files && e.request == Request(f, tsConfig, ctx)
    decreases |files|
  {
    if files != [] && !ctx.isCancelled(step) && ctx.isAlive(step) && !ctx.analysisFails(step) {
      BatchRequestsNameTheirTsConfig(files[1..], tsConfig, ctx, step + 1);
      forall f | f in files[1..] ensures f in files {}
    }
  }

  /** A group that returns normally made exactly one request and one tick per file, in file order. */
  lemma {:induction false} GroupReturnsFileEvents(files: seq<InputFile>, tsConfig: TsConfigFile, ctx: Context, step: nat)
    ensures var r := AnalyzeFilesWithTsConfig(files, tsConfig, ctx, step);
            r.outcome == Returned ==> r.trace == FileEvents(files, tsConfig, ctx)
    decreases |files|
  {
    if files != [] {
      GroupReturnsFileEvents(files[1..], tsConfig, ctx, step + 1);
    }
  }

  // The whole loop over the groups.

  /**
   The run over all groups stops at the first blocked file among the files of
   the groups that have a tsconfig, taken in group order, with that file's
   exception. Its trace is the stopped reference trace: every group before
   the blocked group complete and closed by one `newTsConfig`, then the
   blocked group's files up to its blocked file, with no `newTsConfig` for it.
   */
  lemma BatchesStopAtFirstBlockedFile(batches: seq<Batch>, ctx: Context, step: nat)
    ensures var r := AnalyzeBatches(batches, ctx, step);
            && r.outcome == ScanOutcome(ctx, step, |MatchedFiles(batches)|)
            && r.trace == StoppedTrace(batches, ctx, step)
  {
    BatchesOutcome(batches, ctx, step);
    BatchesTrace(batches, ctx, step);
  }

  /** The outcome of the run over the groups is that of the first blocked file among their files. */
  lemma {:induction false} BatchesOutcome(batches: seq<Batch>, ctx: Context, step: nat)
    ensures ScanOutcome(ctx, step, |MatchedFiles(batches)|) == AnalyzeBatches(batches, ctx, step).outcome
    decreases |batches|
  {
    if batches != [] {
      match batches[0].key
      case UnmatchedConfig =>
        BatchesOutcome(batches[1..], ctx, step);
        UnmatchedGroupFirst(batches, ctx, step);
      case ForTsConfig(tsConfig) =>
        BatchesOutcome(batches[1..], ctx, step + |batches[0].files|);
        MatchedHeadOutcome(batches, tsConfig, ctx, step);
    }
  }

  /** A first group with a tsconfig: its scan, then, if it returns, the scan of the rest. */
  lemma MatchedHeadOutcome(batches: seq<Batch>, tsConfig: TsConfigFile, ctx: Context, step: nat)
    requires batches != [] && batches[0].key == ForTsConfig(tsConfig)
    requires var n := |batches[0].files|;
             ScanOutcome(ctx, step + n, |MatchedFiles(batches[1..])|) == AnalyzeBatches(batches[1..], ctx, step + n).outcome
    ensures ScanOutcome(ctx, step, |MatchedFiles(batches)|) == AnalyzeBatches(batches, ctx, step).outcome
  {
    GroupOutcome(batches[0].files, tsConfig, ctx, step);
    MatchedGroupFirst(batches, tsConfig, ctx, step);
    ScanOutcomeSplit(ctx, step, |batches[0].files|, |MatchedFiles(batches[1..])|);
  }

  /** A first group without a tsconfig is skipped: it adds no run, no file and no count. */
  lemma UnmatchedGroupFirst(batches: seq<Batch>, ctx: Context, step: nat)
    requires batches != [] && batches[0].key.UnmatchedConfig?
    ensures AnalyzeBatches(batches, ctx, step) == AnalyzeBatches(batches[1..], ctx, step)
    ensures MatchedFiles(batches) == MatchedFiles(batches[1..])
    ensures MatchedBatchCount(batches) == MatchedBatchCount(batches[1..])
  {
    assert MatchedFiles(batches) == [] + MatchedFiles(batches[1..]);
  }

  /** The trace of the run over the groups is the stopped reference trace. */
  lemma {:induction false} BatchesTrace(batches: seq<Batch>, ctx: Context, step: nat)
    ensures AnalyzeBatches(batches, ctx, step).trace == StoppedTrace(batches, ctx, step)
    decreases |batches|
  {
    if batches == [] {
      assert StoppedTrace(batches, ctx, step) == [];
    } else {
      match batches[0].key
      case UnmatchedConfig =>
        BatchesTrace(batches[1..], ctx, step);
        StoppedTraceUnmatchedHead(batches, ctx, step);
      case ForTsConfig(tsConfig) =>
        var n := |batches[0].files|;
        if FirstBlocked(ctx, step, n) < n {
          BlockedHeadTrace(batches, tsConfig, ctx, step);
        } else {
          BatchesTrace(batches[1..], ctx, step + n);
          CompletedHeadTrace(batches, tsConfig, ctx, step);
        }
    }
  }

  /** A first group with a blocked file ends the run with that group's reference trace. */
  lemma BlockedHeadTrace(batches: seq<Batch>, tsConfig: TsConfigFile, ctx: Context, step: nat)
    requires batches != [] && batches[0].key == ForTsConfig(tsConfig)
    requires FirstBlocked(ctx, step, |batches[0].files|) < |batches[0].files|
    ensures AnalyzeBatches(batches, ctx, step).trace == StoppedTrace(batches, ctx, step)
  {
    ScanOutcomeIsFirstBlocked(ctx, step, |batches[0].files|);
    GroupRunIsGroupTrace(batches[0].files, tsConfig, ctx, step);
    MatchedGroupFirst(batches, tsConfig, ctx, step);
    StoppedTraceBlockedHead(batches, tsConfig, ctx, step);
  }

  /** A completed first group puts its events and one `newTsConfig` before the rest of the stopped trace. */
  lemma CompletedHeadTrace(batches: seq<Batch>, tsConfig: TsConfigFile, ctx: Context, step: nat)
    requires batches != [] && batches[0].key == ForTsConfig(tsConfig)
    requires FirstBlocked(ctx, step, |batches[0].files|) == |batches[0].files|
    requires var n := |batches[0].files|;
             AnalyzeBatches(batches[1..], ctx, step + n).trace == StoppedTrace(batches[1..], ctx, step + n)
    ensures AnalyzeBatches(batches, ctx, step).trace == StoppedTrace(batches, ctx, step)
  {
    ScanOutcomeIsFirstBlocked(ctx, step, |batches[0].files|);
    GroupRunIsGroupTrace(batches[0].files, tsConfig, ctx, step);
    GroupTraceCompleted(batches[0].files, tsConfig, ctx, step);
    MatchedGroupFirst(batches, tsConfig, ctx, step);
    StoppedTraceCompletedHead(batches, tsConfig, ctx, step);
  }

  /** A first group with a tsconfig is run first, and its files and its count come first. */
  lemma MatchedGroupFirst(batches: seq<Batch>, tsConfig: TsConfigFile, ctx: Context, step: nat)
    requires batches != [] && batches[0].key == ForTsConfig(tsConfig)
    ensures var batch := AnalyzeFilesWithTsConfig(batches[0].files, tsConfig, ctx, step);
            var rest := AnalyzeBatches(batches[1..], ctx, step + |batches[0].files|);
            AnalyzeBatches(batches, ctx, step)
            == if batch.outcome != Returned then batch
               else Run(rest.outcome, batch.trace + [NewTsConfig] + rest.trace)
    ensures MatchedFiles(batches) == batches[0].files + MatchedFiles(batches[1..])
    ensures MatchedBatchCount(batches) == 1 + MatchedBatchCount(batches[1..])
  {
  }

  /** The groups with a tsconfig, in order: the groups the driver does not skip. */
  function WithoutUnmatched(batches: seq<Batch>): seq<Batch> {
    if batches == [] then []
    else (if batches[0].key.UnmatchedConfig? then [] else [batches[0]]) + WithoutUnmatched(batches[1..])
  }

  /**
   Unmatched groups are skipped wherever they occur: removing them all
   changes neither the run nor the files analysed nor the number of groups
   closed by `newTsConfig`.
   */
  lemma UnmatchedGroupsAreSkipped(batches: seq<Batch>, ctx: Context, step: nat)
    ensures AnalyzeBatches(batches, ctx, step) == AnalyzeBatches(WithoutUnmatched(batches), ctx, step)
    ensures MatchedFiles(batches) == MatchedFiles(WithoutUnmatched(batches))
    ensures MatchedBatchCount(batches) == |WithoutUnmatched(batches)|
    ensures forall b :: b in WithoutUnmatched(batches) ==> b in batches && b.key.ForTsConfig?
  {
    RunWithoutUnmatched(batches, ctx, step);
    FilesWithoutUnmatched(batches);
  }

  /** Removing the unmatched groups leaves the run unchanged. */
  lemma {:induction false} RunWithoutUnmatched(batches: seq<Batch>, ctx: Context, step: nat)
    ensures AnalyzeBatches(batches, ctx, step) == AnalyzeBatches(WithoutUnmatched(batches), ctx, step)
    decreases |batches|
  {
    if batches != [] {
      var rest := batches[1..];
      var kept := WithoutUnmatched(batches);
      match batches[0].key
      case UnmatchedConfig =>
        RunWithoutUnmatched(rest, ctx, step);
        assert kept == WithoutUnmatched(rest);
      case ForTsConfig(tsConfig) =>
        RunWithoutUnmatched(rest, ctx, step + |batches[0].files|);
        assert kept == [batches[0]] + WithoutUnmatched(rest);
        assert kept[0] == batches[0] && kept[1..] == WithoutUnmatched(rest);
    }
  }

  /** Removing the unmatched groups keeps the matched files and groups, in order. */
  lemma {:induction false} FilesWithoutUnmatched(batches: seq<Batch>)
    ensures MatchedFiles(batches) == MatchedFiles(WithoutUnmatched(batches))
    ensures MatchedBatchCount(batches) == |WithoutUnmatched(batches)|
    ensures forall b :: b in WithoutUnmatched(batches) ==> b in batches && b.key.ForTsConfig?
    decreases |batches|
  {
    if batches != [] {
      var rest := batches[1..];
      var kept := WithoutUnmatched(batches);
      FilesWithoutUnmatched(rest);
      if batches[0].key.UnmatchedConfig? {
        assert kept == WithoutUnmatched(rest);
        assert MatchedFiles(batches) == [] + MatchedFiles(rest);
      } else {
        assert kept == [batches[0]] + WithoutUnmatched(rest);
        assert kept[0] == batches[0] && kept[1..] == WithoutUnmatched(rest);
      }
    }
  }

  // Completed runs, against a reference trace.

  /**
   A run over the groups that returns normally is the reference trace: the
   unmatched group leaves no event, and every other group's requests and
   ticks are followed by exactly one `newTsConfig` before the next group starts.
   */
  lemma {:induction false} BatchesReturnCompletedTrace(batches: seq<Batch>, ctx: Context, step: nat)
    ensures var r := AnalyzeBatches(batches, ctx, step);
            r.outcome == Returned ==> r.trace == CompletedTrace(batches, ctx)
    decreases |batches|
  {
    if batches != [] {
      match batches[0].key
      case UnmatchedConfig =>
        BatchesReturnCompletedTrace(batches[1..], ctx, step);
        assert CompletedTrace(batches, ctx) == [] + CompletedTrace(batches[1..], ctx);
      case ForTsConfig(tsConfig) =>
        var group := batches[0].files;
        GroupReturnsFileEvents(group, tsConfig, ctx, step);
        BatchesReturnCompletedTrace(batches[1..], ctx, step + |group|);
        MatchedGroupFirst(batches, tsConfig, ctx, step);
    }
  }

  // The run as a whole.

  /** `analyzeFiles` with no tsconfig initialises the linter and does nothing else. */
  lemma AnalyzeFilesWithoutTsConfigs(ctx: Context, load: Path -> TsConfigFile, universe: set<Path>,
                                     inputFilesByTsConfig: seq<TsConfigFile> -> seq<Batch>)
    requires Closed(load, universe)
    ensures var r := AnalyzeFiles(ctx, [], load, universe, inputFilesByTsConfig);
            && r.outcome == Returned
            && LoadedPaths(r.trace) == [] && AnalyzedPaths(r.trace) == []
            && Count(r.trace, NextFile) == 0 && Count(r.trace, NewTsConfig) == 0
  {
    var r := AnalyzeFiles(ctx, [], load, universe, inputFilesByTsConfig);
    assert r.trace == [InitLinter] && r.trace[1..] == [];
  }

  /**
   `analyzeFiles` with tsconfigs: after the linter initialisation every
   tsconfig reachable from the configured ones is loaded exactly once, in
   breadth-first discovery order, and no load happens afterwards.
   */
  lemma AnalyzeFilesLoadsReachableOnce(ctx: Context, tsConfigs: seq<Path>, load: Path -> TsConfigFile,
                                       universe: set<Path>, inputFilesByTsConfig: seq<TsConfigFile> -> seq<Batch>)
    requires Closed(load, universe)
    requires forall p :: p in tsConfigs ==> p in universe
    requires tsConfigs != []
    ensures var r := AnalyzeFiles(ctx, tsConfigs, load, universe, inputFilesByTsConfig);
            var calls := LoadTsConfigs(load, universe, tsConfigs).loadCalls;
            && LoadedPaths(r.trace) == calls
            && NoDuplicates(LoadedPaths(r.trace))
            && (forall p :: p in LoadedPaths(r.trace) <==> Reachable(load, tsConfigs, p))
            && r.trace[..1 + |calls|] == [InitLinter] + LoadEvents(calls)
            && (forall e :: e in r.trace[1 + |calls|..] ==> !e.LoadTsConfig?)
  {
    var resolution := LoadTsConfigs(load, universe, tsConfigs);
    var batches := inputFilesByTsConfig(resolution.configs);
    var run := AnalyzeBatches(batches, ctx, 0);
    BatchRunLoadsNothing(batches, ctx, 0);
    HeadThenRun(AnalyzeFiles(ctx, tsConfigs, load, universe, inputFilesByTsConfig).trace, resolution.loadCalls, run.trace);
  }

  /**
   `analyzeFiles` with tsconfigs stops at the first blocked file among the
   files of the groups that have a tsconfig, counted from the first file of
   the run. Its trace is the linter initialisation, the load calls, then the
   stopped reference trace of the groups; a normal return closes every such
   group with one `newTsConfig`.
   */
  lemma AnalyzeFilesStopsAtFirstBlockedFile(ctx: Context, tsConfigs: seq<Path>, load: Path -> TsConfigFile,
                                            universe: set<Path>, inputFilesByTsConfig: seq<TsConfigFile> -> seq<Batch>)
    requires Closed(load, universe)
    requires forall p :: p in tsConfigs ==> p in universe
    requires tsConfigs != []
    ensures var r := AnalyzeFiles(ctx, tsConfigs, load, universe, inputFilesByTsConfig);
            var resolution := LoadTsConfigs(load, universe, tsConfigs);
            var batches := inputFilesByTsConfig(resolution.configs);
            && r.outcome == ScanOutcome(ctx, 0, |MatchedFiles(batches)|)
            && r.trace == [InitLinter] + LoadEvents(resolution.loadCalls) + StoppedTrace(batches, ctx, 0)
            && (r.outcome == Returned ==> Count(r.trace, NewTsConfig) == MatchedBatchCount(batches))
  {
    var resolution := LoadTsConfigs(load, universe, tsConfigs);
    LoadsThenBatches(resolution.loadCalls, inputFilesByTsConfig(resolution.configs), ctx);
  }

  /** The groups analysed after the linter initialisation and the load calls, from the first file of the run. */
  lemma LoadsThenBatches(calls: seq<Path>, batches: seq<Batch>, ctx: Context)
    ensures var run := AnalyzeBatches(batches, ctx, 0);
            && run.outcome == ScanOutcome(ctx, 0, |MatchedFiles(batches)|)
            && run.trace == StoppedTrace(batches, ctx, 0)
            && Count([InitLinter] + LoadEvents(calls) + run.trace, NewTsConfig) == Count(run.trace, NewTsConfig)
  {
    var run := AnalyzeBatches(batches, ctx, 0);
    BatchesStopAtFirstBlockedFile(batches, ctx, 0);
    HeadObservations(calls);
    CountAppend([InitLinter] + LoadEvents(calls), run.trace, NewTsConfig);
  }

  /**
   A normal return of `analyzeFiles` with tsconfigs is the linter
   initialisation, the load calls in discovery order, then the reference
   trace of the groups.
   */
  lemma AnalyzeFilesCompletedTrace(ctx: Context, tsConfigs: seq<Path>, load: Path -> TsConfigFile,
                                   universe: set<Path>, inputFilesByTsConfig: seq<TsConfigFile> -> seq<Batch>)
    requires Closed(load, universe)
    requires forall p :: p in tsConfigs ==> p in universe
    requires tsConfigs != []
    ensures var r := AnalyzeFiles(ctx, tsConfigs, load, universe, inputFilesByTsConfig);
            var resolution := LoadTsConfigs(load, universe, tsConfigs);
            r.outcome == Returned ==>
              r.trace == [InitLinter] + LoadEvents(resolution.loadCalls)
                         + CompletedTrace(inputFilesByTsConfig(resolution.configs), ctx)
  {
    var resolution := LoadTsConfigs(load, universe, tsConfigs);
    BatchesReturnCompletedTrace(inputFilesByTsConfig(resolution.configs), ctx, 0);
  }

  /** The observations of the linter initialisation and the load calls, followed by the analysis of the groups. */
  lemma HeadThenRun(trace: seq<Event>, paths: seq<Path>, run: seq<Event>)
    requires trace == [InitLinter] + LoadEvents(paths) + run
    requires forall e :: e in run ==> !e.LoadTsConfig?
    ensures LoadedPaths(trace) == paths
    ensures AnalyzedPaths(trace) == AnalyzedPaths(run)
    ensures Count(trace, NextFile) == Count(run, NextFile)
    ensures Count(trace, NewTsConfig) == Count(run, NewTsConfig)
    ensures trace[..1 + |paths|] == [InitLinter] + LoadEvents(paths)
    ensures trace[1 + |paths|..] == run
  {
    var head := [InitLinter] + LoadEvents(paths);
    HeadObservations(paths);
    NoLoads(run);
    LoadedPathsAppend(head, run);
    AnalyzedPathsAppend(head, run);
    CountAppend(head, run, NextFile);
    CountAppend(head, run, NewTsConfig);
    assert trace[..|head|] == head;
    assert trace[|head|..] == run;
  }

  /** A trace without load calls has no loaded path. */
  lemma {:induction false} NoLoads(trace: seq<Event>)
    requires forall e :: e in trace ==> !e.LoadTsConfig?
    ensures LoadedPaths(trace) == []
    decreases |trace|
  {
    if trace != [] {
      assert trace[0] in trace;
      assert forall e :: e in trace[1..] ==> e in trace;
      NoLoads(trace[1..]);
    }
  }

  /** The linter initialisation and the load calls contribute only the loaded paths. */
  lemma {:induction false} HeadObservations(paths: seq<Path>)
    ensures LoadedPaths([InitLinter] + LoadEvents(paths)) == paths
    ensures AnalyzedPaths([InitLinter] + LoadEvents(paths)) == []
    ensures Count([InitLinter] + LoadEvents(paths), NextFile) == 0
    ensures Count([InitLinter] + LoadEvents(paths), NewTsConfig) == 0
    decreases |paths|
  {
    if paths == [] {
      assert [InitLinter] + LoadEvents(paths) == [InitLinter];
      assert [InitLinter][1..] == [];
    } else {
      var init := paths[..|paths| - 1];
      assert paths == init + [paths[|paths| - 1]];
      HeadObservations(init);
      var last := [LoadTsConfig(paths[|paths| - 1])];
      assert [InitLinter] + LoadEvents(paths) == ([InitLinter] + LoadEvents(init)) + last;
      LoadedPathsAppend([InitLinter] + LoadEvents(init), last);
      AnalyzedPathsAppend([InitLinter] + LoadEvents(init), last);
      CountAppend([InitLinter] + LoadEvents(init), last, NextFile);
      CountAppend([InitLinter] + LoadEvents(init), last, NewTsConfig);
      assert last[1..] == [];
    }
  }

  /** The analysis of the groups never loads a tsconfig. */
  lemma {:induction false} BatchRunLoadsNothing(batches: seq<Batch>, ctx: Context, step: nat)
    ensures forall e :: e in AnalyzeBatches(batches, ctx, step).trace ==> !e.LoadTsConfig?
    decreases |batches|
  {
    if batches != [] {
      BatchRunLoadsNothing(batches[1..], ctx, step + |batches[0].files|);
      BatchRunLoadsNothing(batches[1..], ctx, step);
      match batches[0].key
      case UnmatchedConfig =>
      case ForTsConfig(tsConfig) =>
        GroupRunLoadsNothing(batches[0].files, tsConfig, ctx, step);
    }
  }

  /** The analysis of one group never loads a tsconfig. */
  lemma {:induction false} GroupRunLoadsNothing(files: seq<InputFile>, tsConfig: TsConfigFile, ctx: Context, step: nat)
    ensures forall e :: e in AnalyzeFilesWithTsConfig(files, tsConfig, ctx, step).trace ==> !e.LoadTsConfig?
    decreases |files|
  {
    if files != [] {
      GroupRunLoadsNothing(files[1..], tsConfig, ctx, step + 1);
    }
  }
}
