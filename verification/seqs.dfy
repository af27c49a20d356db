/**
 Sequence helpers shared by the configuration resolver and the batch driver:
 duplicate-freedom and first-occurrence deduplication.
 */
module Seqs {

  /** True iff no element occurs twice in `s`. */
  predicate NoDuplicates<T(==)>(s: seq<T>) {
    forall i, j :: 0 <= i < j < |s| ==> s[i] != s[j]
  }

  /** The first occurrence of every element of `s`, in the order of `s`. */
  function Dedup<T(==,!new)>(s: seq<T>): (d: seq<T>)
    ensures NoDuplicates(d)
    ensures forall x :: x in d <==> x in s
    ensures |d| <= |s|
  {
    if s == [] then []
    else
      var init := s[..|s| - 1];
      assert s == init + [s[|s| - 1]];
      var d := Dedup(init);
      if s[|s| - 1] in d then d else d + [s[|s| - 1]]
  }

  /** Appending one element extends the deduplication by that element exactly when it is new. */
  lemma DedupSnoc<T(!new)>(s: seq<T>, x: T)
    ensures Dedup(s + [x]) == if x in s then Dedup(s) else Dedup(s) + [x]
  {
    assert (s + [x])[..|s + [x]| - 1] == s;
  }

  /** Deduplicating a longer sequence only appends to the deduplication of its prefix. */
  lemma {:induction false} DedupPrefix<T(!new)>(a: seq<T>, b: seq<T>)
    ensures Dedup(a) <= Dedup(a + b)
    decreases |b|
  {
    if b == [] {
      assert a + b == a;
    } else {
      var init := b[..|b| - 1];
      var x := b[|b| - 1];
      assert a + b == (a + init) + [x];
      DedupPrefix(a, init);
      DedupSnoc(a + init, x);
    }
  }

  /** A duplicate-free sequence has as many distinct elements as it has positions. */
  lemma {:induction false} NoDuplicatesCard<T>(s: seq<T>)
    requires NoDuplicates(s)
    ensures |set x | x in s| == |s|
    decreases |s|
  {
    if s != [] {
      var init := s[..|s| - 1];
      var x := s[|s| - 1];
      assert s == init + [x];
      NoDuplicatesCard(init);
      assert x !in init by {
        forall i | 0 <= i < |init| ensures init[i] != x {
          assert s[i] == init[i];
        }
      }
      assert (set y | y in s) == (set y | y in init) + {x};
    }
  }

  /** A duplicate-free sequence drawn from a finite set is no longer than the set. */
  lemma NoDuplicatesBounded<T>(s: seq<T>, u: set<T>)
    requires NoDuplicates(s)
    requires forall x :: x in s ==> x in u
    ensures |s| <= |u|
  {
    NoDuplicatesCard(s);
    var a := set x | x in s;
    assert u == a + (u - a);
    assert a * (u - a) == {};
  }
}
