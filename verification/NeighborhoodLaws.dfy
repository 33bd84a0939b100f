// What the neighbourhood search finds, against undirected citation distance.
module NeighborhoodLaws {
  import opened Lists
  import opened GraphDistance
  import opened Neighborhood

  /** Every edge joins two nodes of the graph. */
  ghost predicate Valid(g: View) {
    forall e :: e in g.edges ==> e.source in g.works + g.others && e.target in g.works + g.others
  }

  ghost predicate Linked(g: View, u: Node, v: Node) {
    Edge(u, v, Citation) in g.edges || Edge(v, u, Citation) in g.edges
  }

  /** The citation graph with directions forgotten. */
  ghost function Links(g: View): Graph {
    map u | u in g.works + g.others :: set v | v in g.works + g.others && Linked(g, u, v)
  }

  lemma AroundIsLinked(g: View, u: Node, v: Node)
    requires Valid(g)
    ensures v in Around(g, u) <==> v in Out(Links(g), u)
  {
  }

  lemma {:induction false} AroundAllHas(g: View, frontier: seq<Node>, v: Node)
    requires Valid(g)
    ensures v in AroundAll(g, frontier) <==> v in Successors(Links(g), Elements(frontier))
  {
    if frontier != [] {
      var n := |frontier| - 1;
      assert frontier == frontier[..n] + [frontier[n]];
      AroundAllHas(g, frontier[..n], v);
      AroundIsLinked(g, frontier[n], v);
    }
  }

  /** Level `d` is the sphere of radius `d`, and all reached within `d` hops is the ball. */
  ghost predicate Agrees(g: View, seeds: seq<Node>, d: nat, v: Node) {
    && (v in Level(g, seeds, d) <==> v in Sphere(Links(g), Elements(seeds), d))
    && (v in Reached(g, seeds, d) <==> v in Ball(Links(g), Elements(seeds), d))
  }

  ghost predicate LevelAgrees(g: View, seeds: seq<Node>, d: nat) {
    Elements(Level(g, seeds, d)) == Sphere(Links(g), Elements(seeds), d)
  }

  lemma NextAgrees(g: View, seeds: seq<Node>, d: nat, v: Node)
    requires Valid(g) && Agrees(g, seeds, d, v) && LevelAgrees(g, seeds, d)
    ensures Agrees(g, seeds, d + 1, v)
  {
    var level := Level(g, seeds, d);
    NewOnesHas(AroundAll(g, level), Reached(g, seeds, d), v);
    AroundAllHas(g, level, v);
    BallFromSphere(Links(g), Elements(seeds), d);
  }

  lemma {:induction false} ReachedIsBall(g: View, seeds: seq<Node>, d: nat, v: Node)
    requires Valid(g)
    ensures Agrees(g, seeds, d, v)
    decreases d, 0
  {
    if d > 0 {
      var before := d - 1;
      assert Agrees(g, seeds, before + 1, v) by {
        LevelIsSphere(g, seeds, before);
        ReachedIsBall(g, seeds, before, v);
        NextAgrees(g, seeds, before, v);
      }
    }
  }

  lemma {:induction false} LevelIsSphere(g: View, seeds: seq<Node>, d: nat)
    requires Valid(g)
    ensures LevelAgrees(g, seeds, d)
    decreases d, 1
  {
    forall v
      ensures v in Elements(Level(g, seeds, d)) <==> v in Sphere(Links(g), Elements(seeds), d)
    {
      ReachedIsBall(g, seeds, d, v);
    }
  }

  /** The search finds exactly the works within `d` undirected citation hops of a seed. */
  lemma NeighborhoodIsWithin(g: View, seeds: seq<Node>, d: nat, v: Node)
    requires Valid(g)
    ensures v in Reached(g, seeds, d) <==> Within(Links(g), Elements(seeds), v, d)
    ensures v in Level(g, seeds, d) <==> AtDistance(Links(g), Elements(seeds), v, d)
  {
    ReachedIsBall(g, seeds, d, v);
    BallIsWithin(Links(g), Elements(seeds), v, d);
    SphereIsAtDistance(Links(g), Elements(seeds), v, d);
  }

  /** No work is reported twice. */
  lemma {:induction false} ReachedIsDistinct(g: View, seeds: seq<Node>, d: nat)
    requires NoDuplicates(seeds)
    ensures NoDuplicates(Reached(g, seeds, d))
  {
    if d > 0 {
      ReachedIsDistinct(g, seeds, d - 1);
      NewOnesJoin(AroundAll(g, Level(g, seeds, d - 1)), Reached(g, seeds, d - 1));
    }
  }

  lemma NewOnesJoin(vs: seq<Node>, before: seq<Node>)
    requires NoDuplicates(before)
    ensures NoDuplicates(before + NewOnes(vs, before))
  {
    NewOnesDistinct(vs, before);
    forall v | v in NewOnes(vs, before)
      ensures v !in before
    {
      NewOnesHas(vs, before, v);
    }
    Joined(before, NewOnes(vs, before));
  }

  lemma Joined(s: seq<Node>, t: seq<Node>)
    requires NoDuplicates(s) && NoDuplicates(t) && forall v :: v in t ==> v !in s
    ensures NoDuplicates(s + t)
  {
    assert forall j :: |s| <= j < |s + t| ==> (s + t)[j] == t[j - |s|] && (s + t)[j] in t;
    assert forall i :: 0 <= i < |s| ==> (s + t)[i] in s;
  }

  lemma KnownIsDistinct(g: View, asked: seq<Node>)
    ensures NoDuplicates(Known(g, Distinct(asked)))
  {
    NewOnesDistinct(asked, []);
    KnownKeepsDistinct(g, Distinct(asked));
  }

  lemma {:induction false} KnownKeepsDistinct(g: View, seeds: seq<Node>)
    requires NoDuplicates(seeds)
    ensures NoDuplicates(Known(g, seeds))
  {
    if seeds != [] {
      var n := |seeds| - 1;
      KnownKeepsDistinct(g, seeds[..n]);
      assert seeds[n] !in seeds[..n];
    }
  }

  /** A larger depth only appends: the shallower result is a prefix of the deeper one. */
  lemma {:induction false} DeeperAppends(g: View, seeds: seq<Node>, d: nat, e: nat)
    requires d <= e
    ensures Reached(g, seeds, d) <= Reached(g, seeds, e)
  {
    if d < e {
      DeeperAppends(g, seeds, d, e - 1);
    }
  }

  /** Works come in nondecreasing distance: whatever is within `k` hops is preceded only by such works. */
  lemma NondecreasingDistance(g: View, seeds: seq<Node>, d: nat, i: nat, j: nat, k: nat)
    requires Valid(g) && NoDuplicates(seeds) && i <= j < |Reached(g, seeds, d)|
    requires Within(Links(g), Elements(seeds), Reached(g, seeds, d)[j], k)
    ensures Within(Links(g), Elements(seeds), Reached(g, seeds, d)[i], k)
  {
    var r := Reached(g, seeds, d);
    NeighborhoodIsWithin(g, seeds, k, r[j]);
    NeighborhoodIsWithin(g, seeds, k, r[i]);
    if k >= d {
      DeeperAppends(g, seeds, d, k);
    } else {
      DeeperAppends(g, seeds, k, d);
      ReachedIsDistinct(g, seeds, d);
      MemberOfPrefix(Reached(g, seeds, k), r, j);
    }
  }

  lemma MemberOfPrefix(s: seq<Node>, t: seq<Node>, j: nat)
    requires s <= t && NoDuplicates(t) && j < |t|
    ensures t[j] in s <==> j < |s|
  {
  }

  // ----- Coverage -----

  /** No citation edge joins a work and another kind of node. */
  ghost predicate CitationsJoinWorks(g: View) {
    forall e :: e in g.edges && e.flag == Citation ==> (e.source in g.works <==> e.target in g.works)
  }

  lemma LinkJoinsWorks(g: View, u: Node, v: Node)
    requires CitationsJoinWorks(g) && u in g.works && v in Out(Links(g), u)
    ensures v in g.works
  {
    assert Edge(u, v, Citation).flag == Citation && Edge(v, u, Citation).flag == Citation;
  }

  ghost predicate AllWorks(g: View, vs: seq<Node>) {
    forall v :: v in vs ==> v in g.works
  }

  lemma {:induction false} ReachedAreWorks(g: View, seeds: seq<Node>, d: nat)
    requires Valid(g) && CitationsJoinWorks(g) && AllWorks(g, seeds)
    ensures AllWorks(g, Reached(g, seeds, d))
  {
    if d > 0 {
      ReachedAreWorks(g, seeds, d - 1);
      NextAreWorks(g, seeds, d - 1);
    }
  }

  lemma NextAreWorks(g: View, seeds: seq<Node>, d: nat)
    requires Valid(g) && CitationsJoinWorks(g) && AllWorks(g, Reached(g, seeds, d))
    ensures AllWorks(g, Reached(g, seeds, d + 1))
  {
    forall v | v in Reached(g, seeds, d + 1)
      ensures v in g.works
    {
      NextIsWork(g, seeds, d, v);
    }
  }

  lemma NextIsWork(g: View, seeds: seq<Node>, d: nat, v: Node)
    requires Valid(g) && CitationsJoinWorks(g) && AllWorks(g, Reached(g, seeds, d)) && v in Reached(g, seeds, d + 1)
    ensures v in g.works
  {
    if v !in Reached(g, seeds, d) {
      var u := MetFrom(g, seeds, d, v);
      LinkJoinsWorks(g, u, v);
    }
  }

  /** A work first met on level `d + 1` is linked to one met before. */
  lemma MetFrom(g: View, seeds: seq<Node>, d: nat, v: Node) returns (u: Node)
    requires Valid(g) && v in Reached(g, seeds, d + 1) && v !in Reached(g, seeds, d)
    ensures u in Reached(g, seeds, d) && v in Out(Links(g), u)
  {
    var level := Level(g, seeds, d);
    assert v in Level(g, seeds, d + 1);
    assert v in AroundAll(g, level) by {
      NewOnesHas(AroundAll(g, level), Reached(g, seeds, d), v);
    }
    u := SourceOf(g, level, v);
    LevelIsReached(g, seeds, d, u);
  }

  lemma SourceOf(g: View, frontier: seq<Node>, v: Node) returns (u: Node)
    requires Valid(g) && v in AroundAll(g, frontier)
    ensures u in frontier && v in Out(Links(g), u)
  {
    AroundAllHas(g, frontier, v);
    u :| u in Elements(frontier) && v in Out(Links(g), u);
  }

  lemma LevelIsReached(g: View, seeds: seq<Node>, d: nat, u: Node)
    requires u in Level(g, seeds, d)
    ensures u in Reached(g, seeds, d)
  {
  }

  lemma CoverageAtMostOne(g: View, seeds: seq<Node>, d: nat)
    requires Valid(g) && CitationsJoinWorks(g) && AllWorks(g, seeds)
    ensures Coverage(g, Reached(g, seeds, d)) <= 1.0
  {
    assert Elements(Reached(g, seeds, d)) <= g.works by {
      ReachedAreWorks(g, seeds, d);
    }
    ShareOf(Elements(Reached(g, seeds, d)), g.works);
  }

  lemma ShareOf(part: set<Node>, whole: set<Node>)
    ensures part <= whole && whole != {} ==> |part| as real / |whole| as real <= 1.0
    ensures whole < part && whole != {} ==> |part| as real / |whole| as real > 1.0
  {
    if part <= whole {
      SubsetSize(part, whole);
    }
    if whole < part {
      SubsetSize(whole, part);
    }
  }

  lemma {:induction false} Listing(s: set<Node>) returns (list: seq<Node>)
    ensures Elements(list) == s
  {
    if s == {} {
      list := [];
    } else {
      var v :| v in s;
      var rest := Listing(s - {v});
      list := rest + [v];
      assert s == Elements(rest) + {v};
    }
  }

  /** A citation edge leaving the works lets the neighbourhood of all works outgrow the projection. */
  lemma MixedEdgeOverflows(g: View, e: Edge) returns (asked: seq<Node>)
    requires Valid(g) && e in g.edges && e.flag == Citation && !(e.source in g.works <==> e.target in g.works)
    ensures Coverage(g, Reached(g, Known(g, Distinct(asked)), 1)) > 1.0
  {
    asked := Listing(g.works);
    var seeds := Known(g, Distinct(asked));
    assert Elements(seeds) == g.works by {
      KnownListing(g, asked);
    }
    var u, w := if e.source in g.works then e.source else e.target, if e.source in g.works then e.target else e.source;
    assert w in Reached(g, seeds, 1) by {
      NeighbourIsReached(g, seeds, u, w);
    }
    assert g.works < Elements(Reached(g, seeds, 1)) by {
      DeeperAppends(g, seeds, 0, 1);
    }
    ShareOf(Elements(Reached(g, seeds, 1)), g.works);
  }

  lemma KnownListing(g: View, asked: seq<Node>)
    requires Elements(asked) == g.works
    ensures Elements(Known(g, Distinct(asked))) == g.works
  {
    forall v
      ensures v in Distinct(asked) <==> v in Elements(asked)
    {
      NewOnesHas(asked, [], v);
    }
  }

  lemma NeighbourIsReached(g: View, seeds: seq<Node>, u: Node, w: Node)
    requires Valid(g) && u in seeds && w in Out(Links(g), u)
    ensures w in Reached(g, seeds, 1)
  {
    assert Level(g, seeds, 0) == seeds && Reached(g, seeds, 0) == seeds;
    NewOnesHas(AroundAll(g, seeds), seeds, w);
    AroundAllHas(g, seeds, w);
    assert u in Elements(seeds);
  }

  /** Coverage never exceeds one, for any seeds and depth, if and only if no citation edge joins a work
      and another kind of node. The graphs that semantic/graph_build.py builds meet this: it flags only edges
      between works. */
  lemma CoverageIff(g: View)
    requires Valid(g)
    ensures CitationsJoinWorks(g)
            <==> forall asked, d :: Coverage(g, Reached(g, Known(g, Distinct(asked)), d)) <= 1.0
  {
    if CitationsJoinWorks(g) {
      forall asked, d
        ensures Coverage(g, Reached(g, Known(g, Distinct(asked)), d)) <= 1.0
      {
        CoverageAtMostOne(g, Known(g, Distinct(asked)), d);
      }
    } else {
      var e :| e in g.edges && e.flag == Citation && !(e.source in g.works <==> e.target in g.works);
      var asked := MixedEdgeOverflows(g, e);
    }
  }

  // ----- The edges and the share -----

  /** A pair is reported exactly if some flagged citation edge joins its two works, in this direction, and both were
      met. */
  lemma EdgeIsReported(g: View, nodes: seq<Node>, p: (Node, Node))
    ensures p in InducedEdges(g.edges, g, nodes)
            <==> exists e :: e in g.edges && e.source == p.0 && e.target == p.1
                             && (e.flag == Citation || e.flag == Missing)
                             && p.0 in g.works && p.1 in g.works && p.0 in nodes && p.1 in nodes
  {
    assert p in InducedEdges(g.edges, g, nodes) <==> Joins(g.edges, g, nodes, p);
    assert p == (p.0, p.1);
  }

  /** The coverage is the number of nodes over the number of works, and zero without works. */
  lemma CoverageIs(g: View, nodes: seq<Node>)
    requires NoDuplicates(nodes)
    ensures g.works == {} ==> Coverage(g, nodes) == 0.0
    ensures g.works != {} ==> Coverage(g, nodes) == |nodes| as real / |g.works| as real
  {
    DistinctSize(nodes);
  }
}
