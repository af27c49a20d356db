/**
 The breadth-first discovery order characterised on its own terms: a
 sequence of reachable paths that equals the first occurrences of "roots, then
 the references of its own elements in order" is unique, so this equation
 together with soundness pins down the order `loadTsConfigs` produces.
 */
module DiscoveryOrder {
  import opened Seqs
  import opened TsConfigGraph
  import opened ConfigResolution

  /** `r` lists reachable paths in breadth-first discovery order from `roots`. */
  ghost predicate IsDiscoveryOrder(load: Path -> TsConfigFile, roots: seq<Path>, r: seq<Path>) {
    && r == Dedup(roots + ConcatRefs(load, r))
    && forall p :: p in r ==> Reachable(load, roots, p)
  }

  /** `ConcatRefs` distributes over splitting its argument. */
  lemma {:induction false} ConcatRefsAppend(load: Path -> TsConfigFile, a: seq<Path>, b: seq<Path>)
    ensures ConcatRefs(load, a + b) == ConcatRefs(load, a) + ConcatRefs(load, b)
    decreases |b|
  {
    if b == [] {
      assert a + b == a;
    } else {
      var init := b[..|b| - 1];
      var x := b[|b| - 1];
      assert b == init + [x];
      assert a + b == (a + init) + [x];
      ConcatRefsAppend(load, a, init);
      ConcatRefsSnoc(load, a + init, x);
      ConcatRefsSnoc(load, init, x);
    }
  }

  /**
   In a discovery order, the element at position `i` is the `i`-th first
   occurrence of the stream generated by the positions before it alone.
   */
  lemma NextIsDetermined(load: Path -> TsConfigFile, roots: seq<Path>, r: seq<Path>, i: nat)
    requires IsDiscoveryOrder(load, roots, r)
    requires i < |r|
    ensures |Dedup(roots + ConcatRefs(load, r[..i]))| > i
    ensures r[i] == Dedup(roots + ConcatRefs(load, r[..i]))[i]
  {
    var t := roots + ConcatRefs(load, r[..i]);
    assert r == r[..i] + r[i..];
    ConcatRefsAppend(load, r[..i], r[i..]);
    assert roots + ConcatRefs(load, r) == t + ConcatRefs(load, r[i..]);
    DedupPrefix(t, ConcatRefs(load, r[i..]));
    if |Dedup(t)| <= i {
      PrefixClosedUnderReferences(load, roots, r, i);
      assert false;
    }
  }

  /**
   If the stream generated by the first `i` positions of a discovery order had
   at most `i` first occurrences, those positions would already hold every
   root and the references of each of their elements, hence every reachable
   path, and the order could not be longer than `i`.
   */
  lemma PrefixClosedUnderReferences(load: Path -> TsConfigFile, roots: seq<Path>, r: seq<Path>, i: nat)
    requires IsDiscoveryOrder(load, roots, r)
    requires i <= |r|
    requires Dedup(roots + ConcatRefs(load, r[..i])) <= r
    requires |Dedup(roots + ConcatRefs(load, r[..i]))| <= i
    ensures |r| <= i
  {
    var t := roots + ConcatRefs(load, r[..i]);
    var m := |Dedup(t)|;
    assert Dedup(t) == r[..m];
    var x := set y | y in r[..m];
    forall q | q in roots ensures q in x {
      assert q in t;
    }
    forall y, q | y in x && q in load(y).projectReferences ensures q in x {
      assert y in r[..i];
      assert q in ConcatRefs(load, r[..i]);
      assert q in t;
    }
    forall y | y in r ensures y in x {
      ClosedSetHoldsReachable(load, roots, x, y);
    }
    NoDuplicatesBounded(r, x);
    NoDuplicatesCard(r[..m]);
  }

  /** Two discovery orders from the same roots are the same sequence. */
  lemma DiscoveryOrderIsUnique(load: Path -> TsConfigFile, roots: seq<Path>, r1: seq<Path>, r2: seq<Path>)
    requires IsDiscoveryOrder(load, roots, r1)
    requires IsDiscoveryOrder(load, roots, r2)
    ensures r1 == r2
  {
    var i := 0;
    while i < |r1| && i < |r2|
      invariant i <= |r1| && i <= |r2|
      invariant r1[..i] == r2[..i]
    {
      CommonPrefixGrows(load, roots, r1, r2, i);
      i := i + 1;
    }
    if |r1| < |r2| {
      NoLongerThanCommonPrefix(load, roots, r1, r2);
      assert false;
    } else if |r2| < |r1| {
      NoLongerThanCommonPrefix(load, roots, r2, r1);
      assert false;
    } else {
      assert r1 == r1[..i] && r2 == r2[..i];
    }
  }

  /** Two discovery orders that agree on their first `i` positions agree on the next one. */
  lemma CommonPrefixGrows(load: Path -> TsConfigFile, roots: seq<Path>, r1: seq<Path>, r2: seq<Path>, i: nat)
    requires IsDiscoveryOrder(load, roots, r1)
    requires IsDiscoveryOrder(load, roots, r2)
    requires i < |r1| && i < |r2| && r1[..i] == r2[..i]
    ensures r1[..i + 1] == r2[..i + 1]
  {
    NextIsDetermined(load, roots, r1, i);
    NextIsDetermined(load, roots, r2, i);
    assert r1[..i + 1] == r1[..i] + [r1[i]];
    assert r2[..i + 1] == r2[..i] + [r2[i]];
  }

  /** A discovery order that is a prefix of another one is all of it. */
  lemma NoLongerThanCommonPrefix(load: Path -> TsConfigFile, roots: seq<Path>, r1: seq<Path>, r2: seq<Path>)
    requires IsDiscoveryOrder(load, roots, r1)
    requires IsDiscoveryOrder(load, roots, r2)
    requires |r1| <= |r2| && r1 == r2[..|r1|]
    ensures |r2| == |r1|
  {
    if |r1| < |r2| {
      NextIsDetermined(load, roots, r2, |r1|);
      assert false;
    }
  }

  /** `loadTsConfigs` issues its load calls in exactly the discovery order, and in no other. */
  lemma LoadCallsAreTheDiscoveryOrder(load: Path -> TsConfigFile, universe: set<Path>, roots: seq<Path>, r: seq<Path>)
    requires Closed(load, universe)
    requires forall p :: p in roots ==> p in universe
    ensures IsDiscoveryOrder(load, roots, LoadTsConfigs(load, universe, roots).loadCalls)
    ensures IsDiscoveryOrder(load, roots, r) <==> r == LoadTsConfigs(load, universe, roots).loadCalls
  {
    var calls := LoadTsConfigs(load, universe, roots).loadCalls;
    if IsDiscoveryOrder(load, roots, r) {
      DiscoveryOrderIsUnique(load, roots, r, calls);
    }
  }

  /** A reference graph with a diamond: A references C, B references C and D. */
  function DiamondGraph(p: Path): TsConfigFile {
    if p == "A" then TsConfigFile("A", ["C"])
    else if p == "B" then TsConfigFile("B", ["C", "D"])
    else TsConfigFile(p, [])
  }

  /** The stream of the diamond example, with its repeated C, deduplicates to four paths. */
  lemma DedupOfDiamondStream<T(!new)>(a: T, b: T, c: T, d: T)
    requires a != b && a != c && a != d && b != c && b != d && c != d
    ensures Dedup([a, b, c, c, d]) == [a, b, c, d]
  {
    DedupOfDistinctThree(a, b, c);
    assert Dedup([a, b, c, c]) == [a, b, c] by {
      DedupSnoc([a, b, c], c);
      assert [a, b, c] + [c] == [a, b, c, c];
    }
    assert d !in [a, b, c, c];
    DedupSnoc([a, b, c, c], d);
    assert [a, b, c, c] + [d] == [a, b, c, c, d];
  }

  /** Three distinct elements deduplicate to themselves. */
  lemma DedupOfDistinctThree<T(!new)>(a: T, b: T, c: T)
    requires a != b && a != c && b != c
    ensures Dedup([a, b, c]) == [a, b, c]
  {
    assert Dedup([a]) == [a] by {
      DedupSnoc([], a);
      assert [] + [a] == [a];
    }
    assert Dedup([a, b]) == [a, b] by {
      DedupSnoc([a], b);
      assert [a] + [b] == [a, b];
    }
    DedupSnoc([a, b], c);
    assert [a, b] + [c] == [a, b, c];
  }

  /** The references of four paths, concatenated in order. */
  lemma ConcatRefsOfFour(load: Path -> TsConfigFile, a: Path, b: Path, c: Path, d: Path)
    ensures ConcatRefs(load, [a, b, c, d])
         == load(a).projectReferences + load(b).projectReferences + load(c).projectReferences + load(d).projectReferences
  {
    assert ConcatRefs(load, [a]) == load(a).projectReferences by {
      ConcatRefsSnoc(load, [], a);
      assert [] + [a] == [a];
    }
    assert ConcatRefs(load, [a, b]) == load(a).projectReferences + load(b).projectReferences by {
      ConcatRefsSnoc(load, [a], b);
      assert [a] + [b] == [a, b];
    }
    assert ConcatRefs(load, [a, b, c])
        == load(a).projectReferences + load(b).projectReferences + load(c).projectReferences by {
      ConcatRefsSnoc(load, [a, b], c);
      assert [a, b] + [c] == [a, b, c];
    }
    ConcatRefsSnoc(load, [a, b, c], d);
    assert [a, b, c] + [d] == [a, b, c, d];
  }

  /** A, B, C and D are all reachable from the roots [A, B]. */
  lemma DiamondReachable()
    ensures forall p :: p in ["A", "B", "C", "D"] ==> Reachable(DiamondGraph, ["A", "B"], p)
  {
    var load := DiamondGraph;
    var roots: seq<Path> := ["A", "B"];
    RootReachable(load, roots, "A");
    RootReachable(load, roots, "B");
    assert RefChain(load, ["A", "C"]);
    assert Reachable(load, roots, "C");
    assert RefChain(load, ["B", "D"]);
    assert Reachable(load, roots, "D");
  }

  /** Roots [A, B] over the diamond load A, B, C, D: C once, found through A, before D. */
  lemma DiamondExample()
    ensures LoadTsConfigs(DiamondGraph, {"A", "B", "C", "D"}, ["A", "B"]).loadCalls == ["A", "B", "C", "D"]
  {
    DiamondClosed();
    DiamondIsDiscoveryOrder();
    LoadCallsAreTheDiscoveryOrder(DiamondGraph, {"A", "B", "C", "D"}, ["A", "B"], ["A", "B", "C", "D"]);
  }

  /** The four diamond paths reference only one another. */
  lemma DiamondClosed()
    ensures Closed(DiamondGraph, {"A", "B", "C", "D"})
  {
  }

  /** A, B, C, D is a discovery order of the diamond from [A, B]. */
  lemma DiamondIsDiscoveryOrder()
    ensures IsDiscoveryOrder(DiamondGraph, ["A", "B"], ["A", "B", "C", "D"])
  {
    var load := DiamondGraph;
    var roots: seq<Path> := ["A", "B"];
    ConcatRefsOfFour(load, "A", "B", "C", "D");
    assert roots + ConcatRefs(load, ["A", "B", "C", "D"]) == ["A", "B", "C", "C", "D"];
    DedupOfDiamondStream("A", "B", "C", "D");
    DiamondReachable();
  }
}
