# TypeScript sensor: tsconfig resolution and the batch driver

This project models the core of SonarJS's `TypeScriptSensor`, the part of the
JavaScript/TypeScript plugin that drives TypeScript analysis through the
eslint-bridge process, and proves properties of that model in Dafny.

Two pieces are modelled:

- **tsconfig resolution** (`loadTsConfigs`). A worklist is seeded with the
  configured tsconfig.json paths. The loop pops at the head and appends each
  loaded tsconfig's `projectReferences` at the tail, so the traversal is
  breadth-first. A `processed` set makes sure every path is loaded at most
  once, even through diamonds and cycles. Module `ConfigResolution` gives the
  loop as a recursive function (`Drain`) and as the imperative loop
  (`LoadTsConfigsLoop`). Module `DiscoveryOrder` characterises the order of the
  load calls independently: the first occurrences of "the roots, then the
  references of the loaded paths in load order". It proves that exactly one
  sequence of reachable paths satisfies that equation, so the equation pins
  the order down.
- **the batch driver** (`analyzeFiles`, `analyzeFilesWithTsConfig`,
  `analyze`). The driver first initialises the linter. With no tsconfig it
  returns at once. Otherwise it resolves the tsconfigs and groups the input
  files by tsconfig. It skips the group of files that no tsconfig covers. In
  every other group it checks each file for cancellation, then for the
  bridge's liveness, then analyses it and ticks the progress report. After
  each completed group it calls `newTsConfig`. Module `TypeScriptSensor`
  models this as pure functions. They return a `Run`: the outcome (a normal
  return or the exception that escapes) and the ordered trace of calls made on
  the bridge and on the progress report. Module `ReferenceTraces` defines,
  without running the driver, what a run should look like: the scan for the
  first file whose gate does not let it through (`ScanOutcome`), the events of
  completed groups (`CompletedTrace`) and the events of a run that stops at
  the first blocked file (`StoppedTrace`). Module `SensorProperties` proves that
  the driver's outcome and trace are exactly these, for every answer of the
  environment.

Everything outside the sensor is a parameter:

- `load: Path -> TsConfigFile` stands for `eslintBridgeServer.loadTsConfig`.
  A finite `universe` of paths that is closed under references bounds the loop.
  It plays no part in the result.
- `Context` holds four oracles, indexed by how many files the run has reached
  across all groups: `context.isCancelled()`, `eslintBridgeServer.isAlive()`,
  whether `analyze` throws an `IOException`, and, when it does and the file's
  content is to be sent, whether that exception came from `file.contents()`
  (before any request was sent) rather than from `analyzeTypeScript`.
- The sensor's `shouldSendFileContent` and `ignoreHeaderComments` settings.
- `inputFilesByTsConfig`, which groups the files by tsconfig, in the map's
  iteration order.

All source paths below are relative to the repository root.

## Model

| member | source | states |
|---|---|---|
| `ConfigResolution.LoadTsConfigs` | sonar-javascript-plugin/src/main/java/org/sonar/plugins/javascript/eslint/TypeScriptSensor.java:169-185 | the i-th returned config is the bridge's answer for the i-th load call; no path is loaded twice; a path is loaded exactly when it is a configured path or reachable from one through `projectReferences`; the load order is the first occurrences of the configured paths followed by the references of the loaded paths in load order; the configured paths (without repeats) come first in their given order; there are at most as many loads as paths in the closed universe |
| `ConfigResolution.LoadTsConfigsLoop` | sonar-javascript-plugin/src/main/java/org/sonar/plugins/javascript/eslint/TypeScriptSensor.java:169-185 | the head-pop, skip-if-processed, load, append-references loop returns exactly the configs of `LoadTsConfigs` |
| `ConfigResolution.DrainDiscoversInOrder` | sonar-javascript-plugin/src/main/java/org/sonar/plugins/javascript/eslint/TypeScriptSensor.java:173-183 | from any loop state where the queue is the unconsumed tail of the enqueue stream and `processed` holds exactly the loaded paths, the loop ends with the first-occurrence order of the whole stream and with exactly the reachable paths loaded |
| `DiscoveryOrder.DiscoveryOrderIsUnique` | sonar-javascript-plugin/src/main/java/org/sonar/plugins/javascript/eslint/TypeScriptSensor.java:171-181 | two sequences of reachable paths that each equal the first occurrences of "roots, then the references of their own elements" are the same sequence |
| `DiscoveryOrder.LoadCallsAreTheDiscoveryOrder` | sonar-javascript-plugin/src/main/java/org/sonar/plugins/javascript/eslint/TypeScriptSensor.java:171-181 | the load calls form a breadth-first discovery order from the configured paths, and a sequence is such an order if and only if it equals the load calls |
| `DiscoveryOrder.DiamondExample` | sonar-javascript-plugin/src/main/java/org/sonar/plugins/javascript/eslint/TypeScriptSensor.java:171-181 | roots [A, B] where A references C and B references C and D are loaded as A, B, C, D, with C loaded once |
| `TypeScriptSensor.AnalyzeFiles` | sonar-javascript-plugin/src/main/java/org/sonar/plugins/javascript/eslint/TypeScriptSensor.java:105-117 | the linter is initialised before anything else; with no tsconfig the run returns normally having done nothing else |
| `TypeScriptSensor.Analyze` | sonar-javascript-plugin/src/main/java/org/sonar/plugins/javascript/eslint/TypeScriptSensor.java:157-167 | `analyze` throws an `IOException` exactly when the environment makes it fail and returns otherwise; it sends no request only when reading the file's content failed |
| `SensorProperties.AnalyzeSendsOneRequest` | sonar-javascript-plugin/src/main/java/org/sonar/plugins/javascript/eslint/TypeScriptSensor.java:157-161 | `analyze` sends at most one request, for its own file: the file's path, its content exactly when the content is to be sent, the header-comment setting and the group's tsconfig alone |
| `TypeScriptSensor.AnalyzeFilesWithTsConfig` | sonar-javascript-plugin/src/main/java/org/sonar/plugins/javascript/eslint/TypeScriptSensor.java:143-155 | one group returns normally exactly when none of its files is blocked; it ticks the progress report once per file that passes and never calls `newTsConfig` |
| `TypeScriptSensor.AnalyzeBatches` | sonar-javascript-plugin/src/main/java/org/sonar/plugins/javascript/eslint/TypeScriptSensor.java:120-131 | the loop over the groups calls `newTsConfig` at most once per group that has a tsconfig, and exactly once per such group when it returns normally |
| `TypeScriptSensor.FirstBlocked` | sonar-javascript-plugin/src/main/java/org/sonar/plugins/javascript/eslint/TypeScriptSensor.java:144-153 | the number of files that pass their gate before the first blocked one: every file before it passes, and the file at that position (if any) is blocked |
| `ReferenceTraces.ScanOutcomeIsFirstBlocked` | sonar-javascript-plugin/src/main/java/org/sonar/plugins/javascript/eslint/TypeScriptSensor.java:144-153 | the outcome of the scan over the files is the exception of the first blocked file (cancellation before liveness before the analysis), or a normal return when none is blocked |
| `ReferenceTraces.ScanOutcomeSplit` | sonar-javascript-plugin/src/main/java/org/sonar/plugins/javascript/eslint/TypeScriptSensor.java:120-131 | scanning the files of two consecutive groups ends where the first group's scan ends, or else where the second group's scan ends |
| `ReferenceTraces.FirstBlockedSplit` | sonar-javascript-plugin/src/main/java/org/sonar/plugins/javascript/eslint/TypeScriptSensor.java:120-131 | the first blocked file of two consecutive runs of files is in the first run or, only if all of it passes, in the second |
| `ReferenceTraces.GroupTraceIsPrefix` | sonar-javascript-plugin/src/main/java/org/sonar/plugins/javascript/eslint/TypeScriptSensor.java:144-154 | the reference trace of a group is the request and tick of each file before its first blocked file, then the blocked file's request when the bridge call itself failed |
| `ReferenceTraces.BlockedGroupIsFirst` | sonar-javascript-plugin/src/main/java/org/sonar/plugins/javascript/eslint/TypeScriptSensor.java:120-131 | the group where a run stops is the first group with a blocked file: every file of the groups before it passes its gate |
| `SensorProperties.BatchStopsAtFirstBlockedFile` | sonar-javascript-plugin/src/main/java/org/sonar/plugins/javascript/eslint/TypeScriptSensor.java:143-155 | a group ends with the exception of its first blocked file, or returns; its trace is exactly the request and tick of each file before that file, in order, plus the blocked file's request when the bridge call itself failed |
| `SensorProperties.CancelledBeforeFile` | sonar-javascript-plugin/src/main/java/org/sonar/plugins/javascript/eslint/TypeScriptSensor.java:144-147 | cancellation first seen before file k of a group ends it in a `CancellationException` whose trace is exactly the requests and ticks of the k files before it |
| `SensorProperties.NotAliveBeforeFile` | sonar-javascript-plugin/src/main/java/org/sonar/plugins/javascript/eslint/TypeScriptSensor.java:148-153 | the bridge first found dead (and no cancellation) before file k of a group ends it in an `IllegalStateException` whose trace is exactly the requests and ticks of the k files before it |
| `SensorProperties.AnalysisFailsAtFile` | sonar-javascript-plugin/src/main/java/org/sonar/plugins/javascript/eslint/TypeScriptSensor.java:143-167 | `analyze` first failing at file k of a group ends it in an `IOException` after the requests and ticks of the k files before it, plus file k's request unless reading its content failed |
| `SensorProperties.BatchRequestsNameTheirTsConfig` | sonar-javascript-plugin/src/main/java/org/sonar/plugins/javascript/eslint/TypeScriptSensor.java:157-161 | every request of a group is built from one of its files and names the group's tsconfig alone |
| `SensorProperties.GroupReturnsFileEvents` | sonar-javascript-plugin/src/main/java/org/sonar/plugins/javascript/eslint/TypeScriptSensor.java:144-154 | a group that returns normally made exactly one request and one tick per file, in file order |
| `SensorProperties.UnmatchedGroupsAreSkipped` | sonar-javascript-plugin/src/main/java/org/sonar/plugins/javascript/eslint/TypeScriptSensor.java:123-127 | removing every group without a tsconfig, wherever it stands, changes neither the run nor the files analysed nor the number of `newTsConfig` calls |
| `SensorProperties.BatchesStopAtFirstBlockedFile` | sonar-javascript-plugin/src/main/java/org/sonar/plugins/javascript/eslint/TypeScriptSensor.java:120-131 | the loop over the groups ends with the exception of the first blocked file among the files of the groups that have a tsconfig, in group order; its trace is every group before the blocked group complete and closed by one `newTsConfig`, then the blocked group's trace up to its blocked file, with no `newTsConfig` after it |
| `SensorProperties.BatchesReturnCompletedTrace` | sonar-javascript-plugin/src/main/java/org/sonar/plugins/javascript/eslint/TypeScriptSensor.java:120-131 | a normal return of the loop is the reference trace: each group with a tsconfig contributes its files' requests and ticks followed by exactly one `newTsConfig`, and the unmatched group contributes nothing |
| `SensorProperties.BatchRunLoadsNothing` | sonar-javascript-plugin/src/main/java/org/sonar/plugins/javascript/eslint/TypeScriptSensor.java:118-131 | analysing the groups never loads a tsconfig |
| `SensorProperties.AnalyzeFilesWithoutTsConfigs` | sonar-javascript-plugin/src/main/java/org/sonar/plugins/javascript/eslint/TypeScriptSensor.java:109-116 | with no tsconfig the run returns normally with no load, no analysis, no tick and no `newTsConfig` |
| `SensorProperties.AnalyzeFilesLoadsReachableOnce` | sonar-javascript-plugin/src/main/java/org/sonar/plugins/javascript/eslint/TypeScriptSensor.java:109-117 | with tsconfigs the linter initialisation is followed by one load per reachable tsconfig, in discovery order and without repeats, and no load happens later |
| `SensorProperties.AnalyzeFilesStopsAtFirstBlockedFile` | sonar-javascript-plugin/src/main/java/org/sonar/plugins/javascript/eslint/TypeScriptSensor.java:117-131 | with tsconfigs the run ends with the exception of the first blocked file among the grouped files, or returns normally; its trace is the linter initialisation, the load calls, then the stopped reference trace of the groups; a normal return calls `newTsConfig` once per group that has a tsconfig |
| `SensorProperties.AnalyzeFilesCompletedTrace` | sonar-javascript-plugin/src/main/java/org/sonar/plugins/javascript/eslint/TypeScriptSensor.java:109-131 | a normal return with tsconfigs is the linter initialisation, then the load calls in discovery order, then the reference trace of the groups |

## Left out

- The progress report's `start`, `stop`, `cancel` and `join` (lines 119 and 133-140) and the `InterruptedException` that `join` can throw are not modelled. The trace records `nextFile` only.
- `processResponse` (line 162) is not modelled: it turns the bridge's answer into issues, metrics and highlighting, which does not affect the control flow of the driver. An exception it might throw is not modelled either.
- `getInputFiles`, `filePredicate` and `describe` are not modelled. The platform's file selection becomes the `inputFilesByTsConfig` parameter.
- `TsConfigProvider` (line 110) is not modelled. The configured tsconfig paths are an input.
- `TsConfigFile.inputFilesByTsConfig` and the equality test with `TsConfigFile.UNMATCHED_CONFIG` (lines 117 and 123) are not part of this model. The grouping is a parameter whose result tags the unmatched group explicitly as `UnmatchedConfig`.
- Failures of `initLinter` and `loadTsConfig` (the bridge's I/O errors there) are not modelled. Both calls are assumed to return. Only `analyze` can fail: reading the file's content or the `analyzeTypeScript` call, through the `analysisFails` and `failsReadingContents` oracles.
- Logging is not modelled.
- The bridge and the sensor context are modelled as oracles indexed by the number of files the run has reached. Real calls could answer differently when asked twice; the driver asks each question at most once per file, so this loses nothing for the driver.
- TypeScriptSensor.AnalyzeFilesWithTsConfig: its own contract states when a group returns and how many ticks it makes. The exact outcome and trace of a stopped group are stated by `SensorProperties.BatchStopsAtFirstBlockedFile`.
- TypeScriptSensor.AnalyzeBatches: its own contract states the number of `newTsConfig` calls only. The exact outcome and trace are stated by `SensorProperties.BatchesStopAtFirstBlockedFile`, and the trace of a normal return by `SensorProperties.BatchesReturnCompletedTrace`.
- TypeScriptSensor.Analyze: its own contract states the outcome and when no request is sent. What the request holds is stated by `SensorProperties.AnalyzeSendsOneRequest`.
- TypeScriptSensor.AnalyzeFiles: its own contract only states the linter-first and empty-tsconfig facts. The load order, the stopping point and the completed trace are stated by the `SensorProperties.AnalyzeFiles…` lemmas above.
- ConfigResolution.LoadTsConfigs: requires a finite set of paths that holds the configured paths and is closed under references. The source needs no such argument, but its loop only ends when finitely many paths are reachable, which holds for tsconfig files on disk; an infinite reference graph is not modelled.
