// What the corpus walk guarantees, against an independent definition of citation distance.
module CorpusWalkLaws {
  import opened Prelude
  import opened Lists
  import opened GraphDistance
  import opened CorpusWalk

  /** A later frontier never exceeds the cap, except that a cap of zero admits one work. */
  lemma FrontierSize(next: Graph, seeds: seq<Node>, cap: int, t: Trail)
    requires IsWalk(next, seeds, cap, t) && t.Then?
    ensures |t.last| <= Limit(cap)
    ensures cap < 1 ==> |t.last| == if Unseen(next, t.before) == {} then 0 else 1
  {
    assert NextOf(next, cap, t.before, t.last);
  }

  /** The best-ranked part is unique. */
  lemma {:induction false} BestRankedIsUnique(
      counts: map<Node, nat>, unseen: set<Node>, cap: int, chosen: seq<Node>, other: seq<Node>)
    requires BestRanked(counts, unseen, cap, chosen) && BestRanked(counts, unseen, cap, other)
    ensures chosen == other
  {
    BestRankedIsSubset(counts, unseen, cap, chosen, other);
    BestRankedIsSubset(counts, unseen, cap, other, chosen);
    SortedIsUnique(counts, chosen, other);
  }

  lemma BestRankedIsSubset(counts: map<Node, nat>, unseen: set<Node>, cap: int, chosen: seq<Node>, other: seq<Node>)
    requires BestRanked(counts, unseen, cap, chosen) && BestRanked(counts, unseen, cap, other)
    ensures Elements(chosen) <= Elements(other)
  {
    ElementsOfSorted(counts, chosen);
    ElementsOfSorted(counts, other);
    forall a | a in chosen
      ensures a in other
    {
      if a !in other {
        var b := OutsideOf(Elements(other), Elements(chosen), a);
      }
    }
  }

  /** A set that misses an element of another no larger set holds one the other misses. */
  lemma OutsideOf(s: set<Node>, t: set<Node>, a: Node) returns (b: Node)
    requires a in t && a !in s && |t| <= |s|
    ensures b in s && b !in t
  {
    if s <= t {
      SubsetSize(s, t - {a});
      assert false;
    }
    b :| b in s && b !in t;
  }

  lemma {:induction false} SortedIsUnique(counts: map<Node, nat>, s: seq<Node>, t: seq<Node>)
    requires SortedBy(counts, s) && SortedBy(counts, t) && Elements(s) == Elements(t)
    ensures s == t
  {
    ElementsOfSorted(counts, s);
    ElementsOfSorted(counts, t);
    if s != [] {
      var n := |s| - 1;
      assert s[n] in Elements(t) && t[n] in Elements(s);
      var i :| 0 <= i < |t| && t[i] == s[n];
      var j :| 0 <= j < |s| && s[j] == t[n];
      LastIsWorst(counts, s, j);
      LastIsWorst(counts, t, i);
      WithoutLast(counts, s);
      WithoutLast(counts, t);
      SortedIsUnique(counts, s[..n], t[..n]);
    }
  }

  lemma LastIsWorst(counts: map<Node, nat>, s: seq<Node>, j: nat)
    requires SortedBy(counts, s) && j < |s|
    ensures s[j] == s[|s| - 1] || Better(counts, s[j], s[|s| - 1])
  {
  }

  lemma WithoutLast(counts: map<Node, nat>, s: seq<Node>)
    requires SortedBy(counts, s) && s != []
    ensures Elements(s[..|s| - 1]) == Elements(s) - {s[|s| - 1]}
  {
    var n := |s| - 1;
    forall i | 0 <= i < n
      ensures s[i] != s[n]
    {
      assert Better(counts, s[i], s[n]);
    }
  }

  /** The walk is a function of the seeds, the graph and the cap: two walks of one length are the same. */
  lemma {:induction false} WalkIsDetermined(
      next: Graph, seeds: seq<Node>, cap: int, t: Trail, t2: Trail)
    requires IsWalk(next, seeds, cap, t) && IsWalk(next, seeds, cap, t2) && Generations(t) == Generations(t2)
    ensures t == t2
  {
    if t.Then? {
      WalkIsDetermined(next, seeds, cap, t.before, t2.before);
      BestRankedIsUnique(CountsOf(next, Elements(t.before.last)), Unseen(next, t.before), cap, t.last, t2.last);
    }
  }

  /** Whatever the cap, everything seen after `g` generations is within citation distance `g` of a seed. */
  lemma SeenIsWithin(
      next: Graph, seeds: seq<Node>, cap: int, t: Trail, v: Node)
    requires IsWalk(next, seeds, cap, t) && v in Seen(next, t)
    ensures Within(next, Elements(seeds), v, Generations(t))
  {
    SeenInBall(next, seeds, cap, t);
    BallIsWithin(next, Elements(seeds), v, Generations(t));
  }

  lemma {:induction false} SeenInBall(next: Graph, seeds: seq<Node>, cap: int, t: Trail)
    requires IsWalk(next, seeds, cap, t)
    ensures Seen(next, t) <= Ball(next, Elements(seeds), Generations(t))
  {
    if t.Then? {
      SeenInBall(next, seeds, cap, t.before);
      FrontierIsNew(next, seeds, cap, t.before);
      NextInBall(next, Elements(seeds), t);
    }
  }

  lemma NextInBall(next: Graph, seeds: set<Node>, t: Trail)
    requires t.Then? && Seen(next, t.before) <= Ball(next, seeds, Generations(t.before))
    requires Elements(t.before.last) <= Seen(next, t.before)
    ensures Seen(next, t) <= Ball(next, seeds, Generations(t))
  {
  }

  /** The cap does not cut any of the generations 1 to `g`. */
  ghost predicate CapAllows(next: Graph, seeds: set<Node>, cap: int, g: nat) {
    g == 0 || (CapAllows(next, seeds, cap, g - 1) && |Sphere(next, seeds, g)| <= Limit(cap))
  }

  /** The frontiers are exactly the sets of works at citation distance 0, 1, 2, ... */
  ghost predicate IsByDistance(next: Graph, seeds: set<Node>, t: Trail) {
    && LastIsSphere(next, seeds, t)
    && (t.Then? ==> IsByDistance(next, seeds, t.before))
  }

  lemma ChosenAll(counts: map<Node, nat>, unseen: set<Node>, cap: int, chosen: seq<Node>)
    requires BestRanked(counts, unseen, cap, chosen)
    ensures Elements(chosen) == unseen <==> |unseen| <= Limit(cap)
  {
    ElementsOfSorted(counts, chosen);
    assert unseen == Elements(chosen) + (unseen - Elements(chosen));
    assert |unseen| == |Elements(chosen)| + |unseen - Elements(chosen)|;
  }

  ghost predicate SeenIsBall(next: Graph, seeds: set<Node>, t: Trail) {
    Seen(next, t) == Ball(next, seeds, Generations(t))
  }

  ghost predicate LastIsSphere(next: Graph, seeds: set<Node>, t: Trail) {
    Elements(t.last) == Sphere(next, seeds, Generations(t))
  }

  /** While the generations so far are by distance, the next one is drawn from the next sphere. */
  lemma NextSphere(next: Graph, seeds: set<Node>, t: Trail)
    requires SeenIsBall(next, seeds, t) && LastIsSphere(next, seeds, t)
    ensures Unseen(next, t) == Sphere(next, seeds, Generations(t) + 1)
    ensures Seen(next, t) + Successors(next, Elements(t.last)) == Ball(next, seeds, Generations(t) + 1)
  {
    BallFromSphere(next, seeds, Generations(t));
  }

  lemma NextSeesBall(next: Graph, seeds: set<Node>, t: Trail)
    requires t.Then? && SeenIsBall(next, seeds, t.before) && LastIsSphere(next, seeds, t.before)
    ensures SeenIsBall(next, seeds, t)
    ensures Unseen(next, t.before) == Sphere(next, seeds, Generations(t))
  {
    NextSphere(next, seeds, t.before);
    SeenThen(next, t.before, t.last);
  }

  lemma NextByDistance(next: Graph, seeds: set<Node>, cap: int, t: Trail)
    requires t.Then? && NextOf(next, cap, t.before, t.last)
    requires Unseen(next, t.before) == Sphere(next, seeds, Generations(t))
    ensures LastIsSphere(next, seeds, t) <==> |Sphere(next, seeds, Generations(t))| <= Limit(cap)
  {
    ChosenAll(CountsOf(next, Elements(t.before.last)), Unseen(next, t.before), cap, t.last);
  }

  lemma ByDistanceStep(next: Graph, seeds: set<Node>, cap: int, t: Trail)
    requires t.Then?
    requires IsByDistance(next, seeds, t.before) <==> CapAllows(next, seeds, cap, Generations(t.before))
    requires IsByDistance(next, seeds, t.before)
             ==> (LastIsSphere(next, seeds, t) <==> |Sphere(next, seeds, Generations(t))| <= Limit(cap))
    ensures IsByDistance(next, seeds, t) <==> CapAllows(next, seeds, cap, Generations(t))
  {
  }

  /** The generations are the exact distances if and only if none of them is larger than the cap allows;
      everything within that distance has then been seen. */
  lemma {:induction false} ExactDistancesIff(next: Graph, seeds: seq<Node>, cap: int, t: Trail)
    requires IsWalk(next, seeds, cap, t)
    ensures IsByDistance(next, Elements(seeds), t) <==> CapAllows(next, Elements(seeds), cap, Generations(t))
    ensures IsByDistance(next, Elements(seeds), t) ==> SeenIsBall(next, Elements(seeds), t)
  {
    if t.Then? {
      ExactDistancesIff(next, seeds, cap, t.before);
      if IsByDistance(next, Elements(seeds), t.before) {
        NextSeesBall(next, Elements(seeds), t);
        NextByDistance(next, Elements(seeds), cap, t);
      }
      ByDistanceStep(next, Elements(seeds), cap, t);
    }
  }

  /** The frontier chosen in generation `g`. */
  function Frontier(t: Trail, g: nat): seq<Node>
    requires g <= Generations(t)
  {
    if g == Generations(t) then t.last else Frontier(t.before, g)
  }

  lemma {:induction false} FrontierByDistance(next: Graph, seeds: set<Node>, t: Trail, g: nat)
    requires IsByDistance(next, seeds, t) && g <= Generations(t)
    ensures Elements(Frontier(t, g)) == Sphere(next, seeds, g)
  {
    if g < Generations(t) {
      FrontierByDistance(next, seeds, t.before, g);
    }
  }

  /** In terms of shortest citation paths: when the cap never binds, a work is in frontier `g` exactly
      when its distance is `g`, and it has been seen exactly when some path of at most as many
      citations as there were generations leads to it. */
  lemma UncappedWalkIsBreadthFirst(next: Graph, seeds: seq<Node>, cap: int, t: Trail, v: Node, g: nat)
    requires IsWalk(next, seeds, cap, t) && g <= Generations(t)
    requires CapAllows(next, Elements(seeds), cap, Generations(t))
    ensures v in Frontier(t, g) <==> AtDistance(next, Elements(seeds), v, g)
    ensures v in Seen(next, t) <==> Within(next, Elements(seeds), v, Generations(t))
  {
    ExactDistancesIff(next, seeds, cap, t);
    FrontierByDistance(next, Elements(seeds), t, g);
    assert v in Frontier(t, g) <==> v in Elements(Frontier(t, g));
    SphereIsAtDistance(next, Elements(seeds), v, g);
    BallIsWithin(next, Elements(seeds), v, Generations(t));
  }

  /** An empty sphere ends the growth of the balls. */
  lemma EmptySphere(next: Graph, seeds: set<Node>, d: nat, v: Node, e: nat)
    requires Sphere(next, seeds, d) == {} && Within(next, seeds, v, e)
    ensures v in Ball(next, seeds, d)
  {
    BallIsWithin(next, seeds, v, e);
    BallFromSphere(next, seeds, d);
    if d <= e {
      BallStops(next, seeds, d, e);
    } else {
      BallGrows(next, seeds, e, d);
    }
  }

  /** An uncapped walk that stops on an empty frontier has seen every work reachable from a seed. */
  lemma StoppedWalkSawEverything(next: Graph, seeds: seq<Node>, cap: int, t: Trail, v: Node, e: nat)
    requires IsWalk(next, seeds, cap, t) && t.last == []
    requires CapAllows(next, Elements(seeds), cap, Generations(t))
    requires Within(next, Elements(seeds), v, e)
    ensures v in Seen(next, t)
  {
    ExactDistancesIff(next, seeds, cap, t);
    EmptySphere(next, Elements(seeds), Generations(t), v, e);
  }

  // ----- The walk without its vocabulary -----

  /** A work cites what its stored references resolve to, apart from itself. */
  lemma CitesIff(refs: map<Node, seq<Option<Node>>>, u: Node, v: Node)
    ensures v in Out(Cites(refs), u) <==> u in refs && Some(v) in refs[u] && v != u
  {
  }

  lemma {:induction false} FrontierIsExpanded(t: Trail, g: nat, v: Node)
    requires g < Generations(t) && v in Frontier(t, g)
    ensures v in Expanded(t)
  {
    if g < Generations(t.before) {
      FrontierIsExpanded(t.before, g, v);
    }
  }

  lemma {:induction false} FrontierOf(t: Trail, v: Node) returns (g: nat)
    requires v in Expanded(t)
    ensures g < Generations(t) && v in Frontier(t, g)
  {
    if v in t.before.last {
      g := Generations(t.before);
    } else {
      g := FrontierOf(t.before, v);
    }
  }

  /** The expanded works are those of the frontiers before the last. */
  lemma ExpandedIff(t: Trail, v: Node)
    ensures v in Expanded(t) <==> exists g: nat :: g < Generations(t) && v in Frontier(t, g)
  {
    if v in Expanded(t) {
      var g := FrontierOf(t, v);
    }
    if exists g: nat :: g < Generations(t) && v in Frontier(t, g) {
      var g: nat :| g < Generations(t) && v in Frontier(t, g);
      FrontierIsExpanded(t, g, v);
    }
  }

  /** What has been seen are the seeds and what the expanded works cite. */
  lemma {:induction false} SeenIff(next: Graph, seeds: seq<Node>, cap: int, t: Trail, v: Node)
    requires IsWalk(next, seeds, cap, t)
    ensures v in Seen(next, t) <==> v in seeds || exists u :: u in Expanded(t) && v in Out(next, u)
  {
    if t.Then? {
      SeenIff(next, seeds, cap, t.before, v);
      CitedBefore(next, t, v);
    }
  }

  lemma CitedBefore(next: Graph, t: Trail, v: Node)
    requires t.Then?
    ensures v in Seen(next, t)
            <==> v in Seen(next, t.before) || exists u :: u in t.before.last && v in Out(next, u)
    ensures (exists u :: u in Expanded(t) && v in Out(next, u))
            <==> || (exists u :: u in Expanded(t.before) && v in Out(next, u))
                 || (exists u :: u in t.before.last && v in Out(next, u))
  {
    assert v in Successors(next, Elements(t.before.last)) <==> exists u :: u in t.before.last && v in Out(next, u);
    assert forall u :: u in Expanded(t) <==> u in Expanded(t.before) || u in t.before.last;
  }

  /** How many works of a frontier cite `v`. */
  lemma CountOf(next: Graph, frontier: seq<Node>, v: Node)
    requires v in CountsOf(next, Elements(frontier))
    ensures CountsOf(next, Elements(frontier))[v] == |set u | u in frontier && v in Out(next, u)|
  {
    assert Citers(next, Elements(frontier), v) == set u | u in frontier && v in Out(next, u);
  }

  lemma BetterIs(next: Graph, frontier: seq<Node>, a: Node, b: Node)
    requires var counts := CountsOf(next, Elements(frontier));
             a in counts && b in counts && Better(counts, a, b)
    ensures var citingA := set u | u in frontier && a in Out(next, u);
            var citingB := set u | u in frontier && b in Out(next, u);
            |citingA| > |citingB| || (|citingA| == |citingB| && a < b)
  {
    CountOf(next, frontier, a);
    CountOf(next, frontier, b);
  }

  /** A later frontier comes in the order of citations by the one before it, ties in the order of ids. */
  lemma MoreCitedComesFirst(next: Graph, seeds: seq<Node>, cap: int, t: Trail, i: nat, j: nat)
    requires IsWalk(next, seeds, cap, t) && t.Then? && i < j < |t.last|
    ensures var a, b := t.last[i], t.last[j];
            var citingA := set u | u in t.before.last && a in Out(next, u);
            var citingB := set u | u in t.before.last && b in Out(next, u);
            |citingA| > |citingB| || (|citingA| == |citingB| && a < b)
  {
    BetterIs(next, t.before.last, t.last[i], t.last[j]);
  }

  /** And a work that is cited but left out is cited by fewer works of it than every one taken up, or by as many and
      has the greater id. */
  lemma MoreCitedIsTaken(next: Graph, seeds: seq<Node>, cap: int, t: Trail, a: Node, b: Node, v: Node)
    requires IsWalk(next, seeds, cap, t) && t.Then? && a in t.last
    requires v in t.before.last && b in Out(next, v) && b !in Seen(next, t.before) && b !in t.last
    ensures var citingA := set u | u in t.before.last && a in Out(next, u);
            var citingB := set u | u in t.before.last && b in Out(next, u);
            |citingA| > |citingB| || (|citingA| == |citingB| && a < b)
  {
    assert b in Unseen(next, t.before);
    BetterIs(next, t.before.last, a, b);
  }

  /** Only a full frontier leaves a work out. */
  lemma OnlyTheCapLeavesOut(next: Graph, seeds: seq<Node>, cap: int, t: Trail, b: Node, v: Node)
    requires IsWalk(next, seeds, cap, t) && t.Then?
    requires v in t.before.last && b in Out(next, v) && b !in Seen(next, t.before) && b !in t.last
    ensures |t.last| == if cap < 1 then 1 else cap
  {
    assert b in Unseen(next, t.before);
    ChosenAll(CountsOf(next, Elements(t.before.last)), Unseen(next, t.before), cap, t.last);
  }

  /** A later frontier holds only works that the one before it cites and that were not seen before, and no more than
      the cap, or one. */
  lemma FrontierIsCited(next: Graph, seeds: seq<Node>, cap: int, t: Trail, a: Node)
    requires IsWalk(next, seeds, cap, t) && t.Then?
    ensures a in t.last ==> a !in Seen(next, t.before) && exists u :: u in t.before.last && a in Out(next, u)
    ensures |t.last| <= if cap < 1 then 1 else cap
  {
  }

  /** The state of a walk: what has been seen, and for each cited work how many expanded works cite it. */
  lemma StateIs(
      next: Graph, seeds: seq<Node>, cap: int, t: Trail, seen: set<Node>, counts: map<Node, nat>, v: Node)
    requires WalkState(next, seeds, cap, t, seen, counts)
    ensures v in seen <==> v in seeds || exists u :: u in Expanded(t) && v in Out(next, u)
    ensures v in counts <==> exists u :: u in Expanded(t) && v in Out(next, u)
    ensures v in counts ==> counts[v] == |set u | u in Expanded(t) && v in Out(next, u)|
    ensures Frontier(t, 0) == seeds
  {
    SeenIff(next, seeds, cap, t, v);
    assert Citers(next, Expanded(t), v) == set u | u in Expanded(t) && v in Out(next, u);
    StartsWithSeeds(next, seeds, cap, t);
  }

  lemma {:induction false} StartsWithSeeds(next: Graph, seeds: seq<Node>, cap: int, t: Trail)
    requires IsWalk(next, seeds, cap, t)
    ensures Frontier(t, 0) == seeds
  {
    if t.Then? {
      StartsWithSeeds(next, seeds, cap, t.before);
    }
  }
}
