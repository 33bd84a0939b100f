// Lists and sets of ids: duplicates, first occurrences, members and sizes.
module Lists {

  ghost predicate NoDuplicates<T>(s: seq<T>) {
    forall i, j :: 0 <= i < j < |s| ==> s[i] != s[j]
  }

  function Elements(s: seq<nat>): set<nat> {
    set v | v in s
  }

  /** The members of `vs` not in `seen`, each at its first occurrence. */
  function NewOnes(vs: seq<nat>, seen: seq<nat>): seq<nat> {
    if vs == [] then []
    else
      var n := |vs| - 1;
      var r := NewOnes(vs[..n], seen);
      if vs[n] in seen || vs[n] in r then r else r + [vs[n]]
  }

  lemma NewOnesStep(vs: seq<nat>, v: nat, seen: seq<nat>)
    ensures NewOnes(vs + [v], seen) ==
            var r := NewOnes(vs, seen);
            if v in seen || v in r then r else r + [v]
  {
    assert (vs + [v])[..|vs|] == vs;
  }

  lemma {:induction false} NewOnesHas(vs: seq<nat>, seen: seq<nat>, v: nat)
    ensures v in NewOnes(vs, seen) <==> v in vs && v !in seen
  {
    if vs != [] {
      var n := |vs| - 1;
      assert vs == vs[..n] + [vs[n]];
      NewOnesHas(vs[..n], seen, v);
    }
  }

  lemma {:induction false} NewOnesDistinct(vs: seq<nat>, seen: seq<nat>)
    ensures NoDuplicates(NewOnes(vs, seen))
  {
    if vs != [] {
      NewOnesDistinct(vs[..|vs| - 1], seen);
    }
  }

  lemma {:induction false} DistinctSize(s: seq<nat>)
    requires NoDuplicates(s)
    ensures |Elements(s)| == |s|
  {
    if s != [] {
      var n := |s| - 1;
      DistinctSize(s[..n]);
      assert Elements(s) == Elements(s[..n]) + {s[n]};
    }
  }

  lemma SubsetSize(a: set<nat>, b: set<nat>)
    requires a <= b
    ensures |a| <= |b|
    ensures a != b ==> |a| < |b|
  {
    assert b == a + (b - a);
    assert |b| == |a| + |b - a|;
  }
}
