// Distances in a directed graph given by its successor function: an independent reference for the
// breadth-first searches.
module GraphDistance {

  // Work ids are compared for equality and by their order, so numbers stand for them.
  type Node = nat

  type Graph = map<Node, set<Node>>

  /** The direct successors; a node the graph does not name has none. */
  function Out(next: Graph, u: Node): set<Node> {
    if u in next then next[u] else {}
  }

  /** A requested number of hops: a negative request is none. */
  function NonNegative(depth: int): nat {
    if depth < 0 then 0 else depth
  }

  ghost predicate IsPath(next: Graph, p: seq<Node>) {
    |p| == 1 || (|p| > 1 && IsPath(next, p[..|p| - 1]) && p[|p| - 1] in Out(next, p[|p| - 2]))
  }

  /** `p` leads from a seed to `v` in at most `d` steps. */
  ghost predicate Leads(next: Graph, seeds: set<Node>, p: seq<Node>, v: Node, d: nat) {
    IsPath(next, p) && p[0] in seeds && p[|p| - 1] == v && |p| <= d + 1
  }

  ghost predicate Within(next: Graph, seeds: set<Node>, v: Node, d: nat) {
    exists p :: Leads(next, seeds, p, v, d)
  }

  /** The shortest path from a seed to `v` has exactly `d` steps. */
  ghost predicate AtDistance(next: Graph, seeds: set<Node>, v: Node, d: nat) {
    Within(next, seeds, v, d) && (d > 0 ==> !Within(next, seeds, v, d - 1))
  }

  ghost function Successors(next: Graph, s: set<Node>): set<Node> {
    set u, v | u in s && v in Out(next, u) :: v
  }

  /** The nodes within `d` steps, computed level by level. */
  ghost function Ball(next: Graph, seeds: set<Node>, d: nat): set<Node> {
    if d == 0 then seeds else Ball(next, seeds, d - 1) + Successors(next, Ball(next, seeds, d - 1))
  }

  ghost function Sphere(next: Graph, seeds: set<Node>, d: nat): set<Node> {
    if d == 0 then seeds else Ball(next, seeds, d) - Ball(next, seeds, d - 1)
  }

  lemma {:induction false} BallIsWithin(next: Graph, seeds: set<Node>, v: Node, d: nat)
    ensures v in Ball(next, seeds, d) <==> Within(next, seeds, v, d)
  {
    if v in Ball(next, seeds, d) {
      var p := PathTo(next, seeds, v, d);
    }
    if Within(next, seeds, v, d) {
      var p :| Leads(next, seeds, p, v, d);
      PathStaysInBall(next, seeds, p, v, d);
    }
  }

  lemma {:induction false} PathTo(next: Graph, seeds: set<Node>, v: Node, d: nat) returns (p: seq<Node>)
    requires v in Ball(next, seeds, d)
    ensures Leads(next, seeds, p, v, d)
    decreases d
  {
    if d == 0 {
      p := [v];
    } else if v in Ball(next, seeds, d - 1) {
      p := PathTo(next, seeds, v, d - 1);
    } else {
      var u :| u in Ball(next, seeds, d - 1) && v in Out(next, u);
      var q := PathTo(next, seeds, u, d - 1);
      p := q + [v];
    }
  }

  lemma {:induction false} PathStaysInBall(next: Graph, seeds: set<Node>, p: seq<Node>, v: Node, d: nat)
    requires Leads(next, seeds, p, v, d)
    ensures v in Ball(next, seeds, d)
    decreases d
  {
    if |p| > 1 {
      var q := p[..|p| - 1];
      PathStaysInBall(next, seeds, q, q[|q| - 1], d - 1);
      assert v in Out(next, q[|q| - 1]);
    } else if d > 0 {
      PathStaysInBall(next, seeds, p, v, d - 1);
    }
  }

  /** The sphere is exactly the set of nodes at distance `d`. */
  lemma SphereIsAtDistance(next: Graph, seeds: set<Node>, v: Node, d: nat)
    ensures v in Sphere(next, seeds, d) <==> AtDistance(next, seeds, v, d)
  {
    BallIsWithin(next, seeds, v, d);
    if d > 0 {
      BallIsWithin(next, seeds, v, d - 1);
    }
  }

  lemma {:induction false} BallGrows(next: Graph, seeds: set<Node>, d: nat, e: nat)
    requires d <= e
    ensures Ball(next, seeds, d) <= Ball(next, seeds, e)
  {
    if d < e {
      BallGrows(next, seeds, d, e - 1);
    }
  }

  /** A ball that stops growing has stopped for good. */
  lemma {:induction false} BallStops(next: Graph, seeds: set<Node>, d: nat, e: nat)
    requires d <= e && Ball(next, seeds, d + 1) == Ball(next, seeds, d)
    ensures Ball(next, seeds, e) == Ball(next, seeds, d)
  {
    if d < e {
      BallStops(next, seeds, d, e - 1);
    }
  }

  /** The successors of a ball are those of its last sphere, up to nodes already in the ball. */
  lemma BallFromSphere(next: Graph, seeds: set<Node>, d: nat)
    ensures Ball(next, seeds, d + 1) == Ball(next, seeds, d) + Successors(next, Sphere(next, seeds, d))
  {
    var b := Ball(next, seeds, d);
    forall v | v in Successors(next, b)
      ensures v in b || v in Successors(next, Sphere(next, seeds, d))
    {
      var u :| u in b && v in Out(next, u);
      if d > 0 && u in Ball(next, seeds, d - 1) {
        assert v in Successors(next, Ball(next, seeds, d - 1));
      }
    }
  }
}
