/**
 The sensor's resolution of the tsconfig reference graph: a worklist seeded
 with the configured paths, popped at the head and extended at the tail (so
 breadth-first), with a `processed` set that lets each path be loaded and
 emitted at most once, which absorbs diamonds and cycles.
 */
module ConfigResolution {
  import opened Seqs
  import opened TsConfigGraph

  /** The configs the sensor obtains, together with the paths it asked the bridge to load, in call order. */
  datatype Resolution = Resolution(configs: seq<TsConfigFile>, loadCalls: seq<Path>)

  /**
   The worklist loop from the state (`queue`, `processed`, `loaded`) to its end;
   `loaded` holds the paths already handed to `loadTsConfig`, and the result
   extends it with the paths loaded from here on. The loop terminates because
   every pop either adds a path of the finite `universe` to `processed` or
   shortens the queue.
   */
  function Drain(load: Path -> TsConfigFile, universe: set<Path>,
                 queue: seq<Path>, processed: set<Path>, loaded: seq<Path>): (r: seq<Path>)
    requires Closed(load, universe)
    requires forall p :: p in queue ==> p in universe
    requires processed <= universe
    ensures loaded <= r
    ensures forall p :: p in r ==> p in loaded || p in universe
    decreases |universe - processed|, |queue|
  {
    if queue == [] then loaded
    else
      var path := queue[0];
      if path in processed then
        Drain(load, universe, queue[1..], processed, loaded)
      else
        ProcessingShrinksRemainder(universe, processed, path);
        Drain(load, universe, queue[1..] + load(path).projectReferences, processed + {path}, loaded + [path])
  }

  /** Marking an unprocessed path of the universe as processed leaves fewer paths to process. */
  lemma ProcessingShrinksRemainder(universe: set<Path>, processed: set<Path>, path: Path)
    requires path in universe && path !in processed
    ensures |universe - (processed + {path})| < |universe - processed|
  {
    assert universe - processed == (universe - (processed + {path})) + {path};
  }

  /**
   `loadTsConfigs`: load the configured tsconfig paths and, transitively, the
   projects they reference. `universe` is any finite set of paths that holds
   the roots and is closed under references; it bounds the loop and takes no
   part in the result.
   */
  function LoadTsConfigs(load: Path -> TsConfigFile, universe: set<Path>, tsConfigPaths: seq<Path>): (res: Resolution)
    requires Closed(load, universe)
    requires forall p :: p in tsConfigPaths ==> p in universe
    // each returned config is what the bridge returned for the matching load call
    ensures |res.configs| == |res.loadCalls|
    ensures forall i :: 0 <= i < |res.loadCalls| ==> res.configs[i] == load(res.loadCalls[i])
    // no path is loaded twice, even through cycles and diamonds
    ensures NoDuplicates(res.loadCalls)
    // sound and complete with respect to reachability from the roots
    ensures forall p :: p in res.loadCalls <==> Reachable(load, tsConfigPaths, p)
    // breadth-first discovery order: the first occurrences of the whole enqueue stream
    ensures res.loadCalls == Dedup(tsConfigPaths + ConcatRefs(load, res.loadCalls))
    // the roots come first, in their given order
    ensures Dedup(tsConfigPaths) <= res.loadCalls
    ensures |res.loadCalls| <= |universe|
  {
    var calls := Drain(load, universe, tsConfigPaths, {}, []);
    ResolutionFromRoots(load, universe, tsConfigPaths);
    Resolution(ConfigsOf(load, calls), calls)
  }

  /** What the bridge returns for each of `paths`, in order. */
  function ConfigsOf(load: Path -> TsConfigFile, paths: seq<Path>): (configs: seq<TsConfigFile>)
    ensures |configs| == |paths|
    ensures forall i :: 0 <= i < |paths| ==> configs[i] == load(paths[i])
  {
    seq(|paths|, i requires 0 <= i < |paths| => load(paths[i]))
  }

  /** Loading one more path emits one more config. */
  lemma ConfigsOfSnoc(load: Path -> TsConfigFile, paths: seq<Path>, p: Path)
    ensures ConfigsOf(load, paths + [p]) == ConfigsOf(load, paths) + [load(p)]
  {
  }

  /**
   The same loop written as the sensor writes it: pop the head of the work
   list, skip it if `processed` already holds it, otherwise load it, emit the
   config and append its references at the tail.
   */
  method LoadTsConfigsLoop(load: Path -> TsConfigFile, universe: set<Path>, tsConfigPaths: seq<Path>)
    returns (tsConfigFiles: seq<TsConfigFile>)
    requires Closed(load, universe)
    requires forall p :: p in tsConfigPaths ==> p in universe
    ensures tsConfigFiles == LoadTsConfigs(load, universe, tsConfigPaths).configs
  {
    tsConfigFiles := [];
    var workList := tsConfigPaths;
    var processed: set<Path> := {};
    ghost var loaded: seq<Path> := [];
    while workList != []
      invariant forall p :: p in workList ==> p in universe
      invariant processed <= universe
      invariant Drain(load, universe, workList, processed, loaded) == Drain(load, universe, tsConfigPaths, {}, [])
      invariant tsConfigFiles == ConfigsOf(load, loaded)
      decreases |universe - processed|, |workList|
    {
      var path := workList[0];
      DrainPop(load, universe, workList, processed, loaded);
      workList := workList[1..];
      if path !in processed {
        ProcessingShrinksRemainder(universe, processed, path);
        processed := processed + {path};
        var tsConfigFile := load(path);
        ConfigsOfSnoc(load, loaded, path);
        tsConfigFiles := tsConfigFiles + [tsConfigFile];
        loaded := loaded + [path];
        workList := workList + tsConfigFile.projectReferences;
      }
    }
  }

  /** One iteration of the loop, as an equation on `Drain`. */
  lemma DrainPop(load: Path -> TsConfigFile, universe: set<Path>,
                 queue: seq<Path>, processed: set<Path>, loaded: seq<Path>)
    requires Closed(load, universe)
    requires forall p :: p in queue ==> p in universe
    requires processed <= universe
    requires queue != []
    ensures queue[0] in processed ==>
      Drain(load, universe, queue, processed, loaded) == Drain(load, universe, queue[1..], processed, loaded)
    ensures queue[0] !in processed ==>
      Drain(load, universe, queue, processed, loaded)
      == Drain(load, universe, queue[1..] + load(queue[0]).projectReferences, processed + {queue[0]}, loaded + [queue[0]])
  {
  }

  /** Everything reachable from roots inside a closed universe stays inside it. */
  lemma ReachableInUniverse(load: Path -> TsConfigFile, universe: set<Path>, roots: seq<Path>, p: Path)
    requires Closed(load, universe)
    requires forall r :: r in roots ==> r in universe
    requires Reachable(load, roots, p)
    ensures p in universe
  {
    ClosedSetHoldsReachable(load, roots, universe, p);
  }

  /** The whole sequence of paths ever appended to the worklist, given the paths loaded so far. */
  function Stream(load: Path -> TsConfigFile, roots: seq<Path>, loaded: seq<Path>): seq<Path> {
    roots + ConcatRefs(load, loaded)
  }

  /**
   The bookkeeping half of the loop invariant: the queue is the unconsumed
   tail of the stream, `loaded` is the deduplicated consumed head, and
   `processed` holds exactly the loaded paths.
   */
  ghost predicate StreamInvariant(load: Path -> TsConfigFile, roots: seq<Path>,
                                  queue: seq<Path>, processed: set<Path>, loaded: seq<Path>)
  {
    QueueTracksStream(Stream(load, roots, loaded), queue, processed, loaded)
  }

  /** `queue` is the unconsumed tail of `s`, `loaded` its deduplicated consumed head, `processed` the set of `loaded`. */
  ghost predicate QueueTracksStream<T(!new)>(s: seq<T>, queue: seq<T>, processed: set<T>, loaded: seq<T>) {
    && |queue| <= |s|
    && queue == s[|s| - |queue|..]
    && loaded == Dedup(s[..|s| - |queue|])
    && (forall p :: p in processed <==> p in loaded)
  }

  /** Every loaded path is reachable from the roots. */
  ghost predicate LoadedReachable(load: Path -> TsConfigFile, roots: seq<Path>, loaded: seq<Path>) {
    forall p :: p in loaded ==> Reachable(load, roots, p)
  }

  /** The loop invariant of `loadTsConfigs`. */
  ghost predicate WorklistInvariant(load: Path -> TsConfigFile, roots: seq<Path>,
                                    queue: seq<Path>, processed: set<Path>, loaded: seq<Path>)
  {
    StreamInvariant(load, roots, queue, processed, loaded) && LoadedReachable(load, roots, loaded)
  }

  /** The invariant holds before the first iteration. */
  lemma WorklistInvariantInit(load: Path -> TsConfigFile, roots: seq<Path>)
    ensures WorklistInvariant(load, roots, roots, {}, [])
  {
    assert Stream(load, roots, []) == roots;
  }

  /**
   Consuming the head of a queue that is the tail of a stream, and appending
   `refs` to both, leaves a queue that is the tail of the longer stream, whose
   consumed head grew by the popped element.
   */
  lemma PopAppend<T>(s: seq<T>, queue: seq<T>, refs: seq<T>)
    requires |queue| <= |s| && queue == s[|s| - |queue|..] && queue != []
    ensures var s', queue' := s + refs, queue[1..] + refs;
            && |queue'| <= |s'|
            && queue' == s'[|s'| - |queue'|..]
            && s'[..|s'| - |queue'|] == s[..|s| - |queue|] + [queue[0]]
  {
    var n := |s| - |queue|;
    assert s[n] == queue[0];
    var s', queue' := s + refs, queue[1..] + refs;
    assert |s'| - |queue'| == n + 1;
    assert s'[..n + 1] == s[..n] + [queue[0]];
  }

  /** Popping an already processed path keeps the invariant. */
  lemma WorklistInvariantSkip(load: Path -> TsConfigFile, roots: seq<Path>,
                              queue: seq<Path>, processed: set<Path>, loaded: seq<Path>)
    requires WorklistInvariant(load, roots, queue, processed, loaded)
    requires queue != [] && queue[0] in processed
    ensures WorklistInvariant(load, roots, queue[1..], processed, loaded)
  {
    var s := Stream(load, roots, loaded);
    PopAppend(s, queue, []);
    assert s + [] == s && queue[1..] + [] == queue[1..];
    DedupSnoc(s[..|s| - |queue|], queue[0]);
  }

  /**
   Consuming a head that is new to the deduplicated consumed part, and
   appending `refs` to queue and stream, extends the deduplicated consumed
   part by that head.
   */
  lemma PopNew<T(!new)>(s: seq<T>, queue: seq<T>, refs: seq<T>, processed: set<T>, loaded: seq<T>)
    requires QueueTracksStream(s, queue, processed, loaded)
    requires queue != [] && queue[0] !in processed
    ensures QueueTracksStream(s + refs, queue[1..] + refs, processed + {queue[0]}, loaded + [queue[0]])
  {
    PopAppend(s, queue, refs);
    DedupSnoc(s[..|s| - |queue|], queue[0]);
  }

  /** Popping a new path, loading it and enqueueing its references keeps the bookkeeping. */
  lemma StreamInvariantLoad(load: Path -> TsConfigFile, roots: seq<Path>,
                            queue: seq<Path>, processed: set<Path>, loaded: seq<Path>)
    requires StreamInvariant(load, roots, queue, processed, loaded)
    requires queue != [] && queue[0] !in processed
    ensures StreamInvariant(load, roots, queue[1..] + load(queue[0]).projectReferences,
                            processed + {queue[0]}, loaded + [queue[0]])
  {
    StreamSnoc(load, roots, loaded, queue[0]);
    PopNew(Stream(load, roots, loaded), queue, load(queue[0]).projectReferences, processed, loaded);
  }

  /** Loading one more path appends its references to the stream. */
  lemma StreamSnoc(load: Path -> TsConfigFile, roots: seq<Path>, loaded: seq<Path>, path: Path)
    ensures Stream(load, roots, loaded + [path]) == Stream(load, roots, loaded) + load(path).projectReferences
  {
    ConcatRefsSnoc(load, loaded, path);
  }

  /** Popping a new path, loading it and enqueueing its references keeps the invariant. */
  lemma WorklistInvariantLoad(load: Path -> TsConfigFile, roots: seq<Path>,
                              queue: seq<Path>, processed: set<Path>, loaded: seq<Path>)
    requires WorklistInvariant(load, roots, queue, processed, loaded)
    requires queue != [] && queue[0] !in processed
    ensures WorklistInvariant(load, roots, queue[1..] + load(queue[0]).projectReferences,
                              processed + {queue[0]}, loaded + [queue[0]])
  {
    StreamInvariantLoad(load, roots, queue, processed, loaded);
    PoppedPathReachable(load, roots, queue, loaded);
  }

  /** The head of the queue is a root or a reference of a loaded, hence reachable, path. */
  lemma PoppedPathReachable(load: Path -> TsConfigFile, roots: seq<Path>, queue: seq<Path>, loaded: seq<Path>)
    requires |queue| <= |Stream(load, roots, loaded)|
    requires queue == Stream(load, roots, loaded)[|Stream(load, roots, loaded)| - |queue|..]
    requires LoadedReachable(load, roots, loaded)
    requires queue != []
    ensures Reachable(load, roots, queue[0])
  {
    var path := queue[0];
    assert path in Stream(load, roots, loaded);
    if path in roots {
      RootReachable(load, roots, path);
    } else {
      assert path in ConcatRefs(load, loaded);
      var q :| q in loaded && path in load(q).projectReferences;
      ReferenceReachable(load, roots, q, path);
    }
  }

  /** When the queue is empty, the loaded paths are the deduplicated stream and exactly the reachable paths. */
  lemma WorklistInvariantExit(load: Path -> TsConfigFile, roots: seq<Path>, processed: set<Path>, loaded: seq<Path>)
    requires WorklistInvariant(load, roots, [], processed, loaded)
    ensures loaded == Dedup(Stream(load, roots, loaded))
    ensures forall p :: p in loaded <==> Reachable(load, roots, p)
  {
    var s := Stream(load, roots, loaded);
    assert s[..|s|] == s;
    forall r | r in roots ensures r in loaded {
      assert r in s;
    }
    forall x, q | x in loaded && q in load(x).projectReferences ensures q in loaded {
      assert q in ConcatRefs(load, loaded);
      assert q in s;
    }
    forall p | Reachable(load, roots, p) ensures p in loaded {
      ClosedSetHoldsReachable(load, roots, (set x | x in loaded), p);
    }
  }

  /**
   From any state satisfying the invariant, the loop ends with the
   first-occurrence order of the complete stream, every loaded path reachable.
   */
  lemma {:induction false} DrainDiscoversInOrder(load: Path -> TsConfigFile, universe: set<Path>, roots: seq<Path>,
                                                 queue: seq<Path>, processed: set<Path>, loaded: seq<Path>)
    requires Closed(load, universe)
    requires forall p :: p in queue ==> p in universe
    requires processed <= universe
    requires WorklistInvariant(load, roots, queue, processed, loaded)
    ensures var r := Drain(load, universe, queue, processed, loaded);
            && r == Dedup(Stream(load, roots, r))
            && (forall p :: p in r <==> Reachable(load, roots, p))
    decreases |universe - processed|, |queue|
  {
    if queue == [] {
      WorklistInvariantExit(load, roots, processed, loaded);
    } else {
      var path := queue[0];
      if path in processed {
        WorklistInvariantSkip(load, roots, queue, processed, loaded);
        DrainDiscoversInOrder(load, universe, roots, queue[1..], processed, loaded);
      } else {
        WorklistInvariantLoad(load, roots, queue, processed, loaded);
        ProcessingShrinksRemainder(universe, processed, path);
        DrainDiscoversInOrder(load, universe, roots, queue[1..] + load(path).projectReferences,
                              processed + {path}, loaded + [path]);
      }
    }
  }

  /** The properties of the loop run from its initial state over the configured roots. */
  lemma ResolutionFromRoots(load: Path -> TsConfigFile, universe: set<Path>, roots: seq<Path>)
    requires Closed(load, universe)
    requires forall p :: p in roots ==> p in universe
    ensures var calls := Drain(load, universe, roots, {}, []);
            && NoDuplicates(calls)
            && (forall p :: p in calls <==> Reachable(load, roots, p))
            && calls == Dedup(roots + ConcatRefs(load, calls))
            && Dedup(roots) <= calls
            && |calls| <= |universe|
  {
    var calls := Drain(load, universe, roots, {}, []);
    WorklistInvariantInit(load, roots);
    DrainDiscoversInOrder(load, universe, roots, roots, {}, []);
    DedupPrefix(roots, ConcatRefs(load, calls));
    forall p | p in calls ensures p in universe {
      ReachableInUniverse(load, universe, roots, p);
    }
    NoDuplicatesBounded(calls, universe);
  }
}
