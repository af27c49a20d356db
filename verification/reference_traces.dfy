/**
 Reference traces for the batch driver, defined from the files and from the
 scan for the first blocked file alone, without running the driver: the
 events of completed groups, of a group that stops at a blocked file, and of
 a whole run over the groups up to the first blocked file. The run lemmas in
 `SensorProperties` equate the driver's traces with these.
 */
module ReferenceTraces {
  import opened TsConfigGraph
  import opened TypeScriptSensor

  // Projections of concatenated traces.

  lemma {:induction false} AnalyzedPathsAppend(a: seq<Event>, b: seq<Event>)
    ensures AnalyzedPaths(a + b) == AnalyzedPaths(a) + AnalyzedPaths(b)
    decreases |a|
  {
    if a == [] {
      assert a + b == b;
    } else {
      assert (a + b)[1..] == a[1..] + b;
      AnalyzedPathsAppend(a[1..], b);
    }
  }

  lemma {:induction false} LoadedPathsAppend(a: seq<Event>, b: seq<Event>)
    ensures LoadedPaths(a + b) == LoadedPaths(a) + LoadedPaths(b)
    decreases |a|
  {
    if a == [] {
      assert a + b == b;
    } else {
      assert (a + b)[0] == a[0] && (a + b)[1..] == a[1..] + b;
      LoadedPathsAppend(a[1..], b);
    }
  }

  lemma {:induction false} PathsAppend(a: seq<InputFile>, b: seq<InputFile>)
    ensures Paths(a + b) == Paths(a) + Paths(b)
    decreases |a|
  {
    if a == [] {
      assert a + b == b;
    } else {
      assert (a + b)[1..] == a[1..] + b;
      PathsAppend(a[1..], b);
    }
  }

  // The first blocked step.

  /** The three properties of `FirstBlocked` determine it. */
  lemma {:induction false} FirstBlockedUnique(ctx: Context, start: nat, n: nat, k: nat)
    requires k <= n
    requires forall j :: start <= j < start + k ==> !Blocked(ctx, j)
    requires k < n ==> Blocked(ctx, start + k)
    ensures FirstBlocked(ctx, start, n) == k
  {
    var f := FirstBlocked(ctx, start, n);
    if f < k {
      assert false;
    } else if k < f {
      assert false;
    }
  }

  /** Scanning `a + b` steps is scanning `a`, then, if nothing blocked, scanning `b` more. */
  lemma {:induction false} FirstBlockedSplit(ctx: Context, start: nat, a: nat, b: nat)
    ensures FirstBlocked(ctx, start, a + b)
         == if FirstBlocked(ctx, start, a) < a then FirstBlocked(ctx, start, a)
            else a + FirstBlocked(ctx, start + a, b)
  {
    var ka := FirstBlocked(ctx, start, a);
    if ka < a {
      FirstBlockedUnique(ctx, start, a + b, ka);
    } else {
      var kb := FirstBlocked(ctx, start + a, b);
      FirstBlockedUnique(ctx, start, a + b, a + kb);
    }
  }

  /** The outcome of `n` steps from `start`: the exception of the first blocked step, or a normal return. */
  function ScanOutcome(ctx: Context, start: nat, n: nat): Outcome
    decreases n
  {
    if n == 0 then Returned
    else if Blocked(ctx, start) then StopOutcome(ctx, start)
    else ScanOutcome(ctx, start + 1, n - 1)
  }

  /** The scan ends with the exception of the step `FirstBlocked` finds, or returns when it finds none. */
  lemma {:induction false} ScanOutcomeIsFirstBlocked(ctx: Context, start: nat, n: nat)
    ensures var k := FirstBlocked(ctx, start, n);
            ScanOutcome(ctx, start, n) == if k == n then Returned else StopOutcome(ctx, start + k)
    decreases n
  {
    if n > 0 && !Blocked(ctx, start) {
      ScanOutcomeIsFirstBlocked(ctx, start + 1, n - 1);
    }
  }

  /** Scanning `n + m` steps ends where the first `n` steps end, or else where the `m` after them end. */
  lemma {:induction false} ScanOutcomeSplit(ctx: Context, start: nat, n: nat, m: nat)
    ensures ScanOutcome(ctx, start, n + m)
         == if ScanOutcome(ctx, start, n) != Returned then ScanOutcome(ctx, start, n) else ScanOutcome(ctx, start + n, m)
    decreases n
  {
    if n > 0 && !Blocked(ctx, start) {
      ScanOutcomeSplit(ctx, start + 1, n - 1, m);
      assert n + m - 1 == (n - 1) + m;
    }
  }

  // One group.

  /** Each file's request followed by its tick, in file order. */
  function FileEvents(files: seq<InputFile>, tsConfig: TsConfigFile, ctx: Context): seq<Event> {
    if files == [] then []
    else [AnalyzeTypeScript(Request(files[0], tsConfig, ctx)), NextFile] + FileEvents(files[1..], tsConfig, ctx)
  }

  /** The completed files of a group show exactly their paths, one tick each and no `newTsConfig`. */
  lemma {:induction false} FileEventsObservations(files: seq<InputFile>, tsConfig: TsConfigFile, ctx: Context)
    ensures AnalyzedPaths(FileEvents(files, tsConfig, ctx)) == Paths(files)
    ensures Count(FileEvents(files, tsConfig, ctx), NextFile) == |files|
    ensures Count(FileEvents(files, tsConfig, ctx), NewTsConfig) == 0
    decreases |files|
  {
    if files != [] {
      var pair := [AnalyzeTypeScript(Request(files[0], tsConfig, ctx)), NextFile];
      var rest := FileEvents(files[1..], tsConfig, ctx);
      FileEventsObservations(files[1..], tsConfig, ctx);
      AnalyzedPathsAppend(pair, rest);
      CountAppend(pair, rest, NextFile);
      CountAppend(pair, rest, NewTsConfig);
      assert pair[1..] == [NextFile] && pair[1..][1..] == [];
    }
  }

  /**
   What the file a group stops at leaves in the trace: its request when the
   bridge call itself failed, nothing when the run was cancelled, the bridge
   was dead or reading the file's content failed.
   */
  function BlockedFileEvents(file: InputFile, tsConfig: TsConfigFile, ctx: Context, step: nat): seq<Event> {
    if StopOutcome(ctx, step) == IOException && !ContentsUnread(file, ctx, step)
    then [AnalyzeTypeScript(Request(file, tsConfig, ctx))]
    else []
  }

  /**
   A group stopped at its file `k` has ticked `k` times; unless the bridge
   call failed, its only requests are those of the files before `k`.
   */
  lemma StoppedGroupObservations(files: seq<InputFile>, tsConfig: TsConfigFile, ctx: Context, blockedAt: nat, k: nat)
    requires k < |files|
    ensures var trace := FileEvents(files[..k], tsConfig, ctx) + BlockedFileEvents(files[k], tsConfig, ctx, blockedAt);
            && Count(trace, NextFile) == k
            && (StopOutcome(ctx, blockedAt) != IOException ==>
                  trace == FileEvents(files[..k], tsConfig, ctx) && AnalyzedPaths(trace) == Paths(files[..k]))
  {
    var done := FileEvents(files[..k], tsConfig, ctx);
    var last := BlockedFileEvents(files[k], tsConfig, ctx, blockedAt);
    FileEventsObservations(files[..k], tsConfig, ctx);
    CountAppend(done, last, NextFile);
    assert Count(last, NextFile) == 0 by {
      if last != [] {
        assert last[1..] == [];
      }
    }
    if StopOutcome(ctx, blockedAt) != IOException {
      assert done + last == done;
    }
  }

  /**
   The trace of a group, the first file being the `step`-th of the run: the
   files that pass their gate, each request followed by its tick, up to the
   first blocked file, then what that file leaves. `GroupTraceIsPrefix`
   states it through the scan `FirstBlocked`.
   */
  function GroupTrace(files: seq<InputFile>, tsConfig: TsConfigFile, ctx: Context, step: nat): seq<Event>
    decreases |files|
  {
    if files == [] then []
    else if Blocked(ctx, step) then BlockedFileEvents(files[0], tsConfig, ctx, step)
    else [AnalyzeTypeScript(Request(files[0], tsConfig, ctx)), NextFile] + GroupTrace(files[1..], tsConfig, ctx, step + 1)
  }

  /** The group trace is the files before the first blocked one, each request followed by its tick, then what that file leaves. */
  lemma GroupTraceIsPrefix(files: seq<InputFile>, tsConfig: TsConfigFile, ctx: Context, step: nat)
    ensures var k := FirstBlocked(ctx, step, |files|);
            GroupTrace(files, tsConfig, ctx, step)
            == FileEvents(files[..k], tsConfig, ctx)
               + (if k < |files| then BlockedFileEvents(files[k], tsConfig, ctx, step + k) else [])
  {
    GroupTraceBlockedAt(files, tsConfig, ctx, step, FirstBlocked(ctx, step, |files|));
  }

  /** The same, for any `k` that has the properties of the first blocked position. */
  lemma {:induction false} GroupTraceBlockedAt(files: seq<InputFile>, tsConfig: TsConfigFile, ctx: Context, step: nat, k: nat)
    requires k <= |files|
    requires forall j :: step <= j < step + k ==> !Blocked(ctx, j)
    requires k < |files| ==> Blocked(ctx, step + k)
    ensures GroupTrace(files, tsConfig, ctx, step)
            == FileEvents(files[..k], tsConfig, ctx)
               + (if k < |files| then BlockedFileEvents(files[k], tsConfig, ctx, step + k) else [])
    decreases k
  {
    if k == 0 {
      assert files[..0] == [];
    } else {
      assert !Blocked(ctx, step);
      GroupTraceBlockedAt(files[1..], tsConfig, ctx, step + 1, k - 1);
      var pre := files[..k];
      var pair := [AnalyzeTypeScript(Request(files[0], tsConfig, ctx)), NextFile];
      var done := FileEvents(files[1..][..k - 1], tsConfig, ctx);
      var last := if k < |files| then BlockedFileEvents(files[k], tsConfig, ctx, step + k) else [];
      assert pre[0] == files[0] && pre[1..] == files[1..][..k - 1];
      assert FileEvents(pre, tsConfig, ctx) == pair + done;
      if k < |files| {
        assert files[1..][k - 1] == files[k];
      }
      assert GroupTrace(files, tsConfig, ctx, step) == pair + (done + last);
      assert pair + (done + last) == (pair + done) + last;
    }
  }

  /** A group without a blocked file leaves exactly its files' requests and ticks. */
  lemma {:induction false} GroupTraceCompleted(files: seq<InputFile>, tsConfig: TsConfigFile, ctx: Context, step: nat)
    requires FirstBlocked(ctx, step, |files|) == |files|
    ensures GroupTrace(files, tsConfig, ctx, step) == FileEvents(files, tsConfig, ctx)
  {
    GroupTraceIsPrefix(files, tsConfig, ctx, step);
    assert files[..|files|] == files;
  }

  // The loop over the groups.

  /** The events of a completed group: none for the unmatched group, otherwise its files' events and `newTsConfig`. */
  function CompletedGroup(batch: Batch, ctx: Context): seq<Event> {
    match batch.key
    case UnmatchedConfig => []
    case ForTsConfig(tsConfig) => FileEvents(batch.files, tsConfig, ctx) + [NewTsConfig]
  }

  /** The events of every group that has a tsconfig, each closed by `newTsConfig`, in group order. */
  function CompletedTrace(batches: seq<Batch>, ctx: Context): seq<Event> {
    if batches == [] then [] else CompletedGroup(batches[0], ctx) + CompletedTrace(batches[1..], ctx)
  }

  /** The files a group contributes to the run: none for the unmatched group. */
  function GroupFiles(batch: Batch): seq<InputFile> {
    if batch.key.UnmatchedConfig? then [] else batch.files
  }

  /** The files the first `g` groups contribute to the run, in order. */
  function FilesBefore(batches: seq<Batch>, g: nat): seq<InputFile>
    requires g <= |batches|
  {
    if g == 0 then [] else GroupFiles(batches[0]) + FilesBefore(batches[1..], g - 1)
  }

  /** The completed trace of the first `g` groups. */
  function CompletedBefore(batches: seq<Batch>, ctx: Context, g: nat): seq<Event>
    requires g <= |batches|
  {
    if g == 0 then [] else CompletedGroup(batches[0], ctx) + CompletedBefore(batches[1..], ctx, g - 1)
  }

  /** The first `g` groups contribute the files `MatchedFiles` takes from them and the completed trace of them. */
  lemma {:induction false} BeforeIsPrefix(batches: seq<Batch>, ctx: Context, g: nat)
    requires g <= |batches|
    ensures FilesBefore(batches, g) == MatchedFiles(batches[..g])
    ensures CompletedBefore(batches, ctx, g) == CompletedTrace(batches[..g], ctx)
    decreases g
  {
    if g > 0 {
      BeforeIsPrefix(batches[1..], ctx, g - 1);
      assert batches[..g][1..] == batches[1..][..g - 1];
    }
  }

  /**
   The position of the first group that has a tsconfig and a blocked file,
   the first file of the first group being the `step`-th of the run;
   `|batches|` when no such group exists.
   */
  function BlockedGroup(batches: seq<Batch>, ctx: Context, step: nat): (g: nat)
    ensures g <= |batches|
    ensures g < |batches| ==> batches[g].key.ForTsConfig?
    decreases |batches|
  {
    if batches == [] then 0
    else
      match batches[0].key
      case UnmatchedConfig => 1 + BlockedGroup(batches[1..], ctx, step)
      case ForTsConfig(_) =>
        var n := |batches[0].files|;
        if FirstBlocked(ctx, step, n) < n then 0 else 1 + BlockedGroup(batches[1..], ctx, step + n)
  }

  /**
   Every file of the groups before the blocked group passes its gate, and the
   blocked group has a blocked file.
   */
  lemma {:induction false} BlockedGroupIsFirst(batches: seq<Batch>, ctx: Context, step: nat)
    ensures IsFirstBlockedGroup(batches, ctx, step, BlockedGroup(batches, ctx, step))
  {
    PassesBeforeBlockedGroup(batches, ctx, step);
    BlockedGroupBlocks(batches, ctx, step);
  }

  /** Every file of the groups before the blocked group passes its gate. */
  lemma {:induction false} PassesBeforeBlockedGroup(batches: seq<Batch>, ctx: Context, step: nat)
    ensures var before := |FilesBefore(batches, BlockedGroup(batches, ctx, step))|;
            FirstBlocked(ctx, step, before) == before
    decreases |batches|
  {
    var g := BlockedGroup(batches, ctx, step);
    if g != 0 {
      var n := |GroupFiles(batches[0])|;
      HeadPasses(batches, ctx, step);
      PassesBeforeBlockedGroup(batches[1..], ctx, step + n);
      var m := |FilesBefore(batches[1..], g - 1)|;
      assert |FilesBefore(batches, g)| == n + m;
      AllPass(ctx, step, n, m);
    }
  }

  /** The blocked group, when there is one, has a blocked file. */
  lemma {:induction false} BlockedGroupBlocks(batches: seq<Batch>, ctx: Context, step: nat)
    ensures var g := BlockedGroup(batches, ctx, step);
            g < |batches| ==>
              var start := step + |FilesBefore(batches, g)|;
              FirstBlocked(ctx, start, |batches[g].files|) < |batches[g].files|
    decreases |batches|
  {
    var g := BlockedGroup(batches, ctx, step);
    if g != 0 {
      var n := |GroupFiles(batches[0])|;
      HeadPasses(batches, ctx, step);
      BlockedGroupBlocks(batches[1..], ctx, step + n);
      var m := |FilesBefore(batches[1..], g - 1)|;
      assert |FilesBefore(batches, g)| == n + m;
      if g < |batches| {
        assert batches[g] == batches[1..][g - 1];
        assert step + n + m == step + (n + m);
      }
    }
  }

  /** When the blocked group is not the first, all files of the first group pass and the search goes on in the rest. */
  lemma HeadPasses(batches: seq<Batch>, ctx: Context, step: nat)
    requires batches != [] && BlockedGroup(batches, ctx, step) != 0
    ensures var n := |GroupFiles(batches[0])|;
            && FirstBlocked(ctx, step, n) == n
            && BlockedGroup(batches[1..], ctx, step + n) == BlockedGroup(batches, ctx, step) - 1
  {
    if batches[0].key.UnmatchedConfig? {
      assert GroupFiles(batches[0]) == [];
    }
  }

  /**
   The `g`-th group is the first with a blocked file: all the files of the
   groups before it pass their gate, and it has a blocked file if it exists.
   */
  ghost predicate IsFirstBlockedGroup(batches: seq<Batch>, ctx: Context, step: nat, g: nat)
    requires g <= |batches|
  {
    var before := |FilesBefore(batches, g)|;
    && FirstBlocked(ctx, step, before) == before
    && (g < |batches| ==> FirstBlocked(ctx, step + before, |batches[g].files|) < |batches[g].files|)
  }

  /** Two consecutive runs of steps that all pass make one. */
  lemma AllPass(ctx: Context, step: nat, n: nat, m: nat)
    requires FirstBlocked(ctx, step, n) == n && FirstBlocked(ctx, step + n, m) == m
    ensures FirstBlocked(ctx, step, n + m) == n + m
  {
    FirstBlockedSplit(ctx, step, n, m);
  }

  /**
   The trace of a run over the groups, the first file being the `step`-th of
   the run: every group before the blocked group, complete and closed by
   `newTsConfig`; then the blocked group's trace up to its blocked file, with
   no `newTsConfig` for it. Without a blocked group this is `CompletedTrace`.
   */
  function StoppedTrace(batches: seq<Batch>, ctx: Context, step: nat): seq<Event> {
    StoppedTraceAt(batches, ctx, step, BlockedGroup(batches, ctx, step))
  }

  /** The stopped trace when the `g`-th group is the blocked group. */
  function StoppedTraceAt(batches: seq<Batch>, ctx: Context, step: nat, g: nat): seq<Event>
    requires g <= |batches|
  {
    CompletedBefore(batches, ctx, g) + StoppedGroup(batches, ctx, g, step + |FilesBefore(batches, g)|)
  }

  /** The trace of the `g`-th group, when there is one, stopping at its first blocked file. */
  function StoppedGroup(batches: seq<Batch>, ctx: Context, g: nat, start: nat): seq<Event> {
    if g < |batches| then BatchTrace(batches[g], ctx, start) else []
  }

  /** The trace of one group whose first file is the `start`-th of the run, stopping at its first blocked file. */
  function BatchTrace(batch: Batch, ctx: Context, start: nat): seq<Event> {
    match batch.key
    case UnmatchedConfig => []
    case ForTsConfig(tsConfig) => GroupTrace(batch.files, tsConfig, ctx, start)
  }

  /** Moving the blocked group `g > 0` one group on: the first group's completed events come first. */
  lemma StoppedTraceAtShift(batches: seq<Batch>, ctx: Context, step: nat, g: nat)
    requires 0 < g <= |batches|
    ensures StoppedTraceAt(batches, ctx, step, g)
         == CompletedGroup(batches[0], ctx) + StoppedTraceAt(batches[1..], ctx, step + |GroupFiles(batches[0])|, g - 1)
  {
    var rest := batches[1..];
    var start := step + |GroupFiles(batches[0])| + |FilesBefore(rest, g - 1)|;
    assert step + |FilesBefore(batches, g)| == start;
    if g < |batches| {
      assert batches[g] == rest[g - 1];
    }
    var head := CompletedGroup(batches[0], ctx);
    var done := CompletedBefore(rest, ctx, g - 1);
    var tail := StoppedGroup(rest, ctx, g - 1, start);
    assert (head + done) + tail == head + (done + tail);
  }

  /** An unmatched first group leaves nothing in the stopped trace. */
  lemma StoppedTraceUnmatchedHead(batches: seq<Batch>, ctx: Context, step: nat)
    requires batches != [] && batches[0].key.UnmatchedConfig?
    ensures StoppedTrace(batches, ctx, step) == StoppedTrace(batches[1..], ctx, step)
  {
    var g := BlockedGroup(batches, ctx, step);
    assert g - 1 == BlockedGroup(batches[1..], ctx, step);
    StoppedTraceAtShift(batches, ctx, step, g);
  }

  /** A first group that has a tsconfig and a blocked file is all of the stopped trace. */
  lemma StoppedTraceBlockedHead(batches: seq<Batch>, tsConfig: TsConfigFile, ctx: Context, step: nat)
    requires batches != [] && batches[0].key == ForTsConfig(tsConfig)
    requires FirstBlocked(ctx, step, |batches[0].files|) < |batches[0].files|
    ensures StoppedTrace(batches, ctx, step) == GroupTrace(batches[0].files, tsConfig, ctx, step)
  {
  }

  /** A first group that has a tsconfig and lets all its files through is complete, closed by `newTsConfig`. */
  lemma StoppedTraceCompletedHead(batches: seq<Batch>, tsConfig: TsConfigFile, ctx: Context, step: nat)
    requires batches != [] && batches[0].key == ForTsConfig(tsConfig)
    requires FirstBlocked(ctx, step, |batches[0].files|) == |batches[0].files|
    ensures StoppedTrace(batches, ctx, step)
         == FileEvents(batches[0].files, tsConfig, ctx) + [NewTsConfig]
            + StoppedTrace(batches[1..], ctx, step + |batches[0].files|)
  {
    var g := BlockedGroup(batches, ctx, step);
    assert g - 1 == BlockedGroup(batches[1..], ctx, step + |batches[0].files|);
    StoppedTraceAtShift(batches, ctx, step, g);
  }
}
