// acquisition/walk.py: the ranked, capped breadth-first walk that grows the corpus.
module CorpusWalk {
  import opened Prelude
  import opened Lists
  import opened GraphDistance

  // ----- expand_references: the cited works of one source -----

  /** The works of the references that resolve, each at its first occurrence. */
  function FirstOccurrences(refs: seq<Option<Node>>): (cited: seq<Node>)
    ensures NoDuplicates(cited)
    ensures forall v :: v in cited <==> Some(v) in refs
  {
    if refs == [] then []
    else
      var last := refs[|refs| - 1];
      var before := FirstOccurrences(refs[..|refs| - 1]);
      assert refs == refs[..|refs| - 1] + [last];
      if last.None? || last.value in before then before else before + [last.value]
  }

  method ExpandReferences(refs: seq<Option<Node>>) returns (cited: seq<Node>)
    ensures cited == FirstOccurrences(refs)
  {
    cited := [];
    var seen: set<Node> := {};
    for i := 0 to |refs|
      invariant cited == FirstOccurrences(refs[..i])
      invariant seen == set v | v in cited
    {
      assert refs[..i + 1][..i] == refs[..i];
      if refs[i].Some? && refs[i].value !in seen {
        seen := seen + {refs[i].value};
        cited := cited + [refs[i].value];
      }
    }
    assert refs[..|refs|] == refs;
  }

  /** The references the providers list; a source work that is not stored has none. */
  function RefsOf(refs: map<Node, seq<Option<Node>>>, u: Node): seq<Option<Node>> {
    if u in refs then refs[u] else []
  }

  /** The citation graph: what each work cites, apart from itself. */
  function Cites(refs: map<Node, seq<Option<Node>>>): Graph {
    map u | u in refs :: set v | v in FirstOccurrences(refs[u]) && v != u
  }

  // ----- Citation counts -----

  /** The works of `sources` that cite `v`. */
  ghost function Citers(next: Graph, sources: set<Node>, v: Node): set<Node> {
    set u | u in sources && v in Out(next, u)
  }

  ghost predicate Counted(next: Graph, sources: set<Node>, counts: map<Node, nat>) {
    && (forall v :: v in counts <==> v in Successors(next, sources))
    && (forall v :: v in counts ==> counts[v] == |Citers(next, sources, v)|)
  }

  lemma CitersOfUnion(next: Graph, s: set<Node>, t: set<Node>, v: Node)
    requires s !! t
    ensures |Citers(next, s + t, v)| == |Citers(next, s, v)| + |Citers(next, t, v)|
    ensures v in Successors(next, s) <==> |Citers(next, s, v)| > 0
    ensures v in Successors(next, s + t) <==> v in Successors(next, s) || v in Successors(next, t)
  {
    assert Citers(next, s + t, v) == Citers(next, s, v) + Citers(next, t, v);
    assert Citers(next, s, v) !! Citers(next, t, v);
    if v in Successors(next, s) {
      var u :| u in s && v in Out(next, u);
      assert u in Citers(next, s, v);
    }
    if |Citers(next, s, v)| > 0 {
      var u :| u in Citers(next, s, v);
    }
  }

  /** next_counts[cited] += 1 for every cited work but the source itself. */
  method AddOneEach(u: Node, cited: seq<Node>, counts0: map<Node, nat>) returns (counts: map<Node, nat>)
    requires NoDuplicates(cited)
    ensures forall v :: v in counts <==> v in counts0 || (v in cited && v != u)
    ensures forall v :: v in counts ==>
              counts[v] == (if v in counts0 then counts0[v] else 0) + (if v in cited && v != u then 1 else 0)
  {
    counts := counts0;
    for j := 0 to |cited|
      invariant forall v :: v in counts <==> v in counts0 || (v in cited[..j] && v != u)
      invariant forall v :: v in counts ==>
                  counts[v] == (if v in counts0 then counts0[v] else 0) + (if v in cited[..j] && v != u then 1 else 0)
    {
      var v := cited[j];
      if v != u {
        counts := counts[v := (if v in counts then counts[v] else 0) + 1];
      }
    }
    assert cited[..|cited|] == cited;
  }

  lemma OneMoreCiter(next: Graph, sources: set<Node>, u: Node, v: Node)
    requires u !in sources
    ensures v in Successors(next, sources + {u}) <==> v in Successors(next, sources) || v in Out(next, u)
    ensures |Citers(next, sources + {u}, v)| == |Citers(next, sources, v)| + if v in Out(next, u) then 1 else 0
    ensures v !in Successors(next, sources) ==> |Citers(next, sources, v)| == 0
  {
    CitersOfUnion(next, sources, {u}, v);
    assert Citers(next, {u}, v) == if v in Out(next, u) then {u} else {};
    assert v in Successors(next, {u}) <==> v in Out(next, u);
  }

  /** One expanded source adds one to the count of every work it cites, apart from itself. */
  method CountSource(refs: map<Node, seq<Option<Node>>>, u: Node, counts0: map<Node, nat>, ghost sources: set<Node>)
    returns (counts: map<Node, nat>)
    requires u !in sources && Counted(Cites(refs), sources, counts0)
    ensures Counted(Cites(refs), sources + {u}, counts)
  {
    var cited := ExpandReferences(RefsOf(refs, u));
    counts := AddOneEach(u, cited, counts0);
    ghost var next := Cites(refs);
    assert forall v :: v in Out(next, u) <==> v in cited && v != u;
    forall v
      ensures v in counts <==> v in Successors(next, sources + {u})
      ensures v in counts ==> counts[v] == |Citers(next, sources + {u}, v)|
    {
      OneMoreCiter(next, sources, u, v);
    }
  }

  ghost function CountsOf(next: Graph, s: set<Node>): map<Node, nat> {
    map v | v in Successors(next, s) :: |Citers(next, s, v)|
  }

  lemma CountedIsCountsOf(next: Graph, s: set<Node>, counts: map<Node, nat>)
    requires Counted(next, s, counts)
    ensures counts == CountsOf(next, s) && counts.Keys == Successors(next, s)
  {
  }

  /** The counts of one generation: how many works of the frontier cite each work. */
  method CountGeneration(refs: map<Node, seq<Option<Node>>>, frontier: seq<Node>) returns (counts: map<Node, nat>)
    requires NoDuplicates(frontier)
    ensures Counted(Cites(refs), Elements(frontier), counts)
    ensures counts == CountsOf(Cites(refs), Elements(frontier))
    ensures counts.Keys == Successors(Cites(refs), Elements(frontier))
  {
    counts := map[];
    for i := 0 to |frontier|
      invariant Counted(Cites(refs), Elements(frontier[..i]), counts)
    {
      assert Elements(frontier[..i + 1]) == Elements(frontier[..i]) + {frontier[i]};
      counts := CountSource(refs, frontier[i], counts, Elements(frontier[..i]));
    }
    assert frontier[..|frontier|] == frontier;
    CountedIsCountsOf(Cites(refs), Elements(frontier), counts);
  }

  /** report.citation_counts: the counts of the generations, added up. */
  method Accumulate(total0: map<Node, nat>, counts: map<Node, nat>, ghost next: Graph,
                    ghost expanded: set<Node>, ghost frontier: set<Node>)
    returns (total: map<Node, nat>)
    requires expanded !! frontier && Counted(next, expanded, total0) && Counted(next, frontier, counts)
    ensures Counted(next, expanded + frontier, total)
  {
    total := total0;
    var todo := counts.Keys;
    while todo != {}
      invariant todo <= counts.Keys
      invariant forall v :: v in total <==> v in total0 || v in counts.Keys - todo
      invariant forall v :: v in total ==>
                  total[v] == (if v in total0 then total0[v] else 0)
                              + (if v in counts.Keys - todo then counts[v] else 0)
    {
      var v :| v in todo;
      total := total[v := (if v in total then total[v] else 0) + counts[v]];
      todo := todo - {v};
    }
    forall v
      ensures v in total <==> v in Successors(next, expanded + frontier)
      ensures v in total ==> total[v] == |Citers(next, expanded + frontier, v)|
    {
      CitersOfUnion(next, expanded, frontier, v);
      CitersOfUnion(next, frontier, expanded, v);
    }
  }

  // ----- Ranking the next frontier -----

  /** The sort key (-count, id). */
  predicate Better(counts: map<Node, nat>, a: Node, b: Node)
    requires a in counts && b in counts
  {
    counts[a] > counts[b] || (counts[a] == counts[b] && a < b)
  }

  ghost predicate SortedBy(counts: map<Node, nat>, s: seq<Node>) {
    && (forall i :: 0 <= i < |s| ==> s[i] in counts)
    && (forall i, j :: 0 <= i < j < |s| ==> Better(counts, s[i], s[j]))
  }

  method InsertRanked(counts: map<Node, nat>, s: seq<Node>, v: Node) returns (r: seq<Node>)
    requires SortedBy(counts, s) && v in counts && v !in s
    ensures SortedBy(counts, r)
    ensures forall u :: u in r <==> u in s || u == v
  {
    var i := 0;
    while i < |s| && Better(counts, s[i], v)
      invariant 0 <= i <= |s|
      invariant forall j :: 0 <= j < i ==> Better(counts, s[j], v)
    {
      i := i + 1;
    }
    r := s[..i] + [v] + s[i..];
    assert s == s[..i] + s[i..];
  }

  method SortRanked(counts: map<Node, nat>) returns (r: seq<Node>)
    ensures SortedBy(counts, r)
    ensures forall v :: v in r <==> v in counts
  {
    r := [];
    var todo := counts.Keys;
    while todo != {}
      invariant todo <= counts.Keys && SortedBy(counts, r)
      invariant forall v :: v in r <==> v in counts.Keys - todo
    {
      var v :| v in todo;
      r := InsertRanked(counts, r, v);
      todo := todo - {v};
    }
  }

  /** A cap of zero (or less) still admits one work, because the check follows the append. */
  function Limit(cap: int): nat {
    if cap < 1 then 1 else cap
  }

  /** `chosen` is the best-ranked part of `unseen`: as many as the limit allows, in rank order, each
      better than every work left out. */
  ghost predicate BestRanked(counts: map<Node, nat>, unseen: set<Node>, cap: int, chosen: seq<Node>) {
    && SortedBy(counts, chosen)
    && Elements(chosen) <= unseen && unseen <= counts.Keys
    && |chosen| == (if |unseen| <= Limit(cap) then |unseen| else Limit(cap))
    && (forall a, b :: a in chosen && b in unseen && b !in chosen ==> Better(counts, a, b))
  }

  method NextFrontier(counts: map<Node, nat>, seen: set<Node>, cap: int) returns (chosen: seq<Node>)
    ensures BestRanked(counts, counts.Keys - seen, cap, chosen)
  {
    var ranked := SortRanked(counts);
    chosen := [];
    for i := 0 to |ranked|
      invariant |chosen| < Limit(cap)
      invariant ChosenFrom(counts, ranked, i, seen, chosen)
    {
      if ranked[i] in seen {
        SkipSeen(counts, ranked, i, seen, chosen);
        continue;
      }
      ChooseUnseen(counts, ranked, i, seen, chosen);
      chosen := chosen + [ranked[i]];
      if |chosen| >= cap {
        CutHere(counts, ranked, i + 1, seen, cap, chosen);
        return;
      }
    }
    CutHere(counts, ranked, |ranked|, seen, cap, chosen);
  }

  /** `chosen` is the unseen part of the first `i` ranked works, in rank order. */
  ghost predicate ChosenFrom(counts: map<Node, nat>, ranked: seq<Node>, i: nat, seen: set<Node>, chosen: seq<Node>)
    requires i <= |ranked|
  {
    && SortedBy(counts, chosen)
    && (forall v :: v in chosen <==> v in ranked[..i] && v !in seen)
  }

  lemma SkipSeen(counts: map<Node, nat>, ranked: seq<Node>, i: nat, seen: set<Node>, chosen: seq<Node>)
    requires i < |ranked| && ranked[i] in seen && ChosenFrom(counts, ranked, i, seen, chosen)
    ensures ChosenFrom(counts, ranked, i + 1, seen, chosen)
  {
    assert ranked[..i + 1] == ranked[..i] + [ranked[i]];
  }

  lemma ChooseUnseen(counts: map<Node, nat>, ranked: seq<Node>, i: nat, seen: set<Node>, chosen: seq<Node>)
    requires i < |ranked| && SortedBy(counts, ranked) && ranked[i] !in seen
    requires ChosenFrom(counts, ranked, i, seen, chosen)
    ensures ChosenFrom(counts, ranked, i + 1, seen, chosen + [ranked[i]])
  {
    assert ranked[..i + 1] == ranked[..i] + [ranked[i]];
    forall j | 0 <= j < |chosen|
      ensures Better(counts, chosen[j], ranked[i])
    {
      assert chosen[j] in ranked[..i];
      var p :| 0 <= p < i && ranked[..i][p] == chosen[j];
    }
  }

  lemma {:induction false} ElementsOfSorted(counts: map<Node, nat>, s: seq<Node>)
    requires SortedBy(counts, s)
    ensures |Elements(s)| == |s|
  {
    if s != [] {
      var n := |s| - 1;
      ElementsOfSorted(counts, s[..n]);
      assert Elements(s) == Elements(s[..n]) + {s[n]};
    }
  }

  /** Stopping after `i` ranked works, with the limit reached or nothing left, keeps the best-ranked part. */
  lemma CutHere(counts: map<Node, nat>, ranked: seq<Node>, i: nat, seen: set<Node>, cap: int, chosen: seq<Node>)
    requires i <= |ranked| && SortedBy(counts, ranked) && (forall v :: v in ranked <==> v in counts)
    requires ChosenFrom(counts, ranked, i, seen, chosen)
    requires |chosen| <= Limit(cap) && (i < |ranked| ==> |chosen| == Limit(cap))
    ensures BestRanked(counts, counts.Keys - seen, cap, chosen)
  {
    var unseen := counts.Keys - seen;
    ElementsOfSorted(counts, chosen);
    assert Elements(chosen) <= unseen;
    SubsetSize(Elements(chosen), unseen);
    if i == |ranked| {
      assert ranked[..i] == ranked;
      assert Elements(chosen) == unseen;
    }
    assert forall q :: 0 <= q < i ==> ranked[q] in ranked[..i];
    forall a, b | a in chosen && b in unseen && b !in chosen
      ensures Better(counts, a, b)
    {
      var p :| 0 <= p < i && ranked[..i][p] == a;
      var q :| 0 <= q < |ranked| && ranked[q] == b;
    }
  }

  // ----- The walk -----

  /** The frontiers of a walk, in order; `last` is the one not yet expanded. */
  datatype Trail = Seeds(last: seq<Node>) | Then(before: Trail, last: seq<Node>)

  /** The number of generations after the seeds. */
  function Generations(t: Trail): nat {
    if t.Seeds? then 0 else Generations(t.before) + 1
  }

  /** The works known when the last frontier is chosen: the seeds and everything cited by the expanded works. */
  ghost function Seen(next: Graph, t: Trail): set<Node> {
    if t.Seeds? then Elements(t.last)
    else Seen(next, t.before) + Successors(next, Elements(t.before.last))
  }

  /** The works of all frontiers but the last. */
  ghost function Expanded(t: Trail): set<Node> {
    if t.Seeds? then {} else Expanded(t.before) + Elements(t.before.last)
  }

  /** The works the last frontier cites that were not seen before. */
  ghost function Unseen(next: Graph, t: Trail): set<Node> {
    Successors(next, Elements(t.last)) - Seen(next, t)
  }

  /** `f` is the best-ranked part of the works the last frontier cites that were not seen before. */
  ghost predicate NextOf(next: Graph, cap: int, t: Trail, f: seq<Node>) {
    BestRanked(CountsOf(next, Elements(t.last)), Unseen(next, t), cap, f)
  }

  ghost predicate IsWalk(next: Graph, seeds: seq<Node>, cap: int, t: Trail) {
    if t.Seeds? then t.last == seeds && NoDuplicates(seeds)
    else IsWalk(next, seeds, cap, t.before) && NextOf(next, cap, t.before, t.last)
  }

  lemma RankedIsDistinct(counts: map<Node, nat>, s: seq<Node>)
    requires SortedBy(counts, s)
    ensures NoDuplicates(s)
  {
    forall i, j | 0 <= i < j < |s|
      ensures s[i] != s[j]
    {
      assert Better(counts, s[i], s[j]);
    }
  }

  /** No work is in two frontiers or twice in one, so none is expanded twice. */
  lemma {:induction false} FrontierIsNew(next: Graph, seeds: seq<Node>, cap: int, t: Trail)
    requires IsWalk(next, seeds, cap, t)
    ensures NoDuplicates(t.last)
    ensures Expanded(t) !! Elements(t.last)
    ensures Expanded(t) + Elements(t.last) <= Seen(next, t)
  {
    if t.Then? {
      FrontierIsNew(next, seeds, cap, t.before);
      RankedIsDistinct(CountsOf(next, Elements(t.before.last)), t.last);
    }
  }

  /** A walk, with everything seen up to its last frontier and the citation counts of all works expanded
      before it: for each cited work, the number of other expanded works that cite it. */
  ghost predicate WalkState(
      next: Graph, seeds: seq<Node>, cap: int, t: Trail, seen: set<Node>, counts: map<Node, nat>)
  {
    && IsWalk(next, seeds, cap, t)
    && seen == Seen(next, t)
    && Counted(next, Expanded(t), counts)
  }

  lemma SeenThen(next: Graph, t: Trail, f: seq<Node>)
    ensures Seen(next, Then(t, f)) == Seen(next, t) + Successors(next, Elements(t.last))
    ensures Expanded(Then(t, f)) == Expanded(t) + Elements(t.last)
  {
  }

  lemma ExtendState(
      next: Graph, seeds: seq<Node>, cap: int, t: Trail, f: seq<Node>, counts: map<Node, nat>)
    requires IsWalk(next, seeds, cap, t)
    requires NextOf(next, cap, t, f)
    requires Counted(next, Expanded(t) + Elements(t.last), counts)
    ensures WalkState(next, seeds, cap, Then(t, f), Seen(next, t) + Successors(next, Elements(t.last)), counts)
  {
    SeenThen(next, t, f);
  }

  lemma UnionSize<T>(a: set<T>, b: set<T>)
    ensures |a + b| == |a| + |b - a|
  {
    assert a + b == a + (b - a);
  }

  lemma StartState(next: Graph, seeds: seq<Node>, cap: int)
    requires NoDuplicates(seeds)
    ensures WalkState(next, seeds, cap, Seeds(seeds), Elements(seeds), map[])
    ensures |Elements(seeds)| == |seeds|
  {
    DistinctSize(seeds);
  }

  /** One generation: count, accumulate, choose the next frontier. */
  method Generation(
      refs: map<Node, seq<Option<Node>>>, ghost seeds: seq<Node>, cap: int, t: Trail, seen: set<Node>,
      counts: map<Node, nat>)
    returns (t': Trail, seen': set<Node>, counts': map<Node, nat>, found: nat)
    requires WalkState(Cites(refs), seeds, cap, t, seen, counts)
    ensures WalkState(Cites(refs), seeds, cap, t', seen', counts')
    ensures t'.Then? && t'.before == t
    ensures |seen'| == |seen| + found
  {
    ghost var next := Cites(refs);
    FrontierIsNew(next, seeds, cap, t);
    var nextCounts := CountGeneration(refs, t.last);
    counts' := Accumulate(counts, nextCounts, next, Expanded(t), Elements(t.last));
    found := |nextCounts.Keys - seen|;
    var chosen := NextFrontier(nextCounts, seen, cap);
    seen' := seen + nextCounts.Keys;
    UnionSize(seen, nextCounts.Keys);
    t' := Then(t, chosen);
    ExtendState(next, seeds, cap, t, chosen, counts');
  }

  /** The walk to `depth` generations: the frontiers, every work seen, how many are new, and how many
      other expanded works cite each. */
  method WalkCorpus(seeds: seq<Node>, refs: map<Node, seq<Option<Node>>>, depth: int, cap: int)
    returns (t: Trail, seen: set<Node>, discovered: nat, counts: map<Node, nat>)
    requires NoDuplicates(seeds)
    ensures WalkState(Cites(refs), seeds, cap, t, seen, counts)
    ensures Generations(t) <= NonNegative(depth)
    ensures Generations(t) < NonNegative(depth) ==> t.last == []
    ensures discovered == |seen| - |seeds|
  {
    t, seen, discovered, counts := Seeds(seeds), set v | v in seeds, 0, map[];
    StartState(Cites(refs), seeds, cap);
    var gen := 1;
    while gen <= depth
      invariant WalkState(Cites(refs), seeds, cap, t, seen, counts)
      invariant gen == Generations(t) + 1 <= NonNegative(depth) + 1
      invariant discovered == |seen| - |seeds|
    {
      if t.last == [] {
        break;
      }
      var found;
      t, seen, counts, found := Generation(refs, seeds, cap, t, seen, counts);
      discovered := discovered + found;
      gen := gen + 1;
    }
  }

}
