/**
 The tsconfig reference graph as the sensor sees it: loading a tsconfig.json
 path through the eslint-bridge yields a `TsConfigFile` whose
 `projectReferences` are further tsconfig paths. Loading is an oracle
 (`load`), so the graph is the function `load` restricted to the paths one can
 reach from the configured roots.
 */
module TsConfigGraph {

  type Path = string

  /** What the bridge returns for one tsconfig.json that the sensor reads: its name and the tsconfigs it references. */
  datatype TsConfigFile = TsConfigFile(filename: string, projectReferences: seq<Path>)

  /** A finite set of paths that contains the references of each of its members. */
  ghost predicate Closed(load: Path -> TsConfigFile, universe: set<Path>) {
    forall p, q :: p in universe && q in load(p).projectReferences ==> q in universe
  }

  /** A non-empty path through the reference graph: each element references the next. */
  ghost predicate RefChain(load: Path -> TsConfigFile, c: seq<Path>) {
    && |c| > 0
    && forall i :: 0 <= i < |c| - 1 ==> c[i + 1] in load(c[i]).projectReferences
  }

  /** `p` is a root or is reachable from a root through `projectReferences`. */
  ghost predicate Reachable(load: Path -> TsConfigFile, roots: seq<Path>, p: Path) {
    exists c :: RefChain(load, c) && c[0] in roots && c[|c| - 1] == p
  }

  /** The references of `ps`, concatenated in the order of `ps`. */
  function ConcatRefs(load: Path -> TsConfigFile, ps: seq<Path>): (r: seq<Path>)
    ensures forall q :: q in r ==> exists p :: p in ps && q in load(p).projectReferences
    ensures forall p, q :: p in ps && q in load(p).projectReferences ==> q in r
  {
    if ps == [] then []
    else
      var init := ps[..|ps| - 1];
      assert ps == init + [ps[|ps| - 1]];
      ConcatRefs(load, init) + load(ps[|ps| - 1]).projectReferences
  }

  /** Appending a path appends its references. */
  lemma ConcatRefsSnoc(load: Path -> TsConfigFile, ps: seq<Path>, p: Path)
    ensures ConcatRefs(load, ps + [p]) == ConcatRefs(load, ps) + load(p).projectReferences
  {
    assert (ps + [p])[..|ps + [p]| - 1] == ps;
  }

  /** Every root is reachable, by the chain that consists of the root alone. */
  lemma RootReachable(load: Path -> TsConfigFile, roots: seq<Path>, p: Path)
    requires p in roots
    ensures Reachable(load, roots, p)
  {
    assert RefChain(load, [p]);
  }

  /** A reference of a reachable path is reachable. */
  lemma ReferenceReachable(load: Path -> TsConfigFile, roots: seq<Path>, p: Path, q: Path)
    requires Reachable(load, roots, p)
    requires q in load(p).projectReferences
    ensures Reachable(load, roots, q)
  {
    var c :| RefChain(load, c) && c[0] in roots && c[|c| - 1] == p;
    var c' := c + [q];
    assert RefChain(load, c');
  }

  /**
   A set that holds every root and the references of each of its members
   holds every reachable path.
   */
  lemma {:induction false} ClosedSetHoldsReachable(load: Path -> TsConfigFile, roots: seq<Path>, s: set<Path>, p: Path)
    requires forall r :: r in roots ==> r in s
    requires forall x, q :: x in s && q in load(x).projectReferences ==> q in s
    requires Reachable(load, roots, p)
    ensures p in s
  {
    var c :| RefChain(load, c) && c[0] in roots && c[|c| - 1] == p;
    var i := 0;
    while i < |c| - 1
      invariant 0 <= i < |c|
      invariant c[i] in s
    {
      assert c[i + 1] in load(c[i]).projectReferences;
      i := i + 1;
    }
  }
}
