// answer/traverse.py: citation lookups and the undirected neighbourhood search.
module Neighborhood {
  import opened Prelude
  import opened Lists
  import opened GraphDistance

  // The mixed graph. An edge's is_citation attribute is true, false or missing.
  datatype Flag = Citation | NotCitation | Missing

  datatype Edge = Edge(source: Node, target: Node, flag: Flag)

  // `works` are the nodes whose node_type is missing or "Work".
  datatype View = View(works: set<Node>, others: set<Node>, edges: seq<Edge>)

  // ----- cites_of and cited_by -----

  ghost predicate Increasing(s: seq<Node>) {
    forall i, j :: 0 <= i < j < |s| ==> s[i] < s[j]
  }

  /** Adds `v` to a sorted list, unless it is there. */
  function Insert(s: seq<Node>, v: Node): (r: seq<Node>)
    requires Increasing(s)
    ensures Increasing(r)
    ensures forall u :: u in r <==> u in s || u == v
  {
    if s == [] then [v]
    else
      var n := |s| - 1;
      assert s == s[..n] + [s[n]];
      if s[n] < v then s + [v]
      else if s[n] == v then s
      else
        var r := Insert(s[..n], v);
        assert forall i :: 0 <= i < |r| ==> r[i] in r;
        r + [s[n]]
  }

  /** The works `u` cites, sorted. */
  function CitesOf(edges: seq<Edge>, u: Node): (out: seq<Node>)
    ensures Increasing(out)
    ensures forall v :: v in out <==> Edge(u, v, Citation) in edges
  {
    if edges == [] then []
    else
      var n := |edges| - 1;
      var e := edges[n];
      assert edges == edges[..n] + [e];
      var out := CitesOf(edges[..n], u);
      if e.source == u && e.flag == Citation then Insert(out, e.target) else out
  }

  /** The works that cite `v`, sorted. */
  function CitedBy(edges: seq<Edge>, v: Node): (out: seq<Node>)
    ensures Increasing(out)
    ensures forall u :: u in out <==> Edge(u, v, Citation) in edges
  {
    if edges == [] then []
    else
      var n := |edges| - 1;
      var e := edges[n];
      assert edges == edges[..n] + [e];
      var out := CitedBy(edges[..n], v);
      if e.target == v && e.flag == Citation then Insert(out, e.source) else out
  }

  method FindCited(g: Option<View>, u: Node) returns (out: seq<Node>)
    ensures g.Some? && u in g.value.works + g.value.others ==> out == CitesOf(g.value.edges, u)
    ensures g.None? || u !in g.value.works + g.value.others ==> out == []
  {
    if g.None? || u !in g.value.works + g.value.others {
      return [];
    }
    var edges := g.value.edges;
    out := [];
    for i := 0 to |edges|
      invariant out == CitesOf(edges[..i], u)
    {
      assert edges[..i + 1][..i] == edges[..i];
      if edges[i].source == u && edges[i].flag == Citation {
        out := Insert(out, edges[i].target);
      }
    }
    assert edges[..|edges|] == edges;
  }

  method FindCiting(g: Option<View>, v: Node) returns (out: seq<Node>)
    ensures g.Some? && v in g.value.works + g.value.others ==> out == CitedBy(g.value.edges, v)
    ensures g.None? || v !in g.value.works + g.value.others ==> out == []
  {
    if g.None? || v !in g.value.works + g.value.others {
      return [];
    }
    var edges := g.value.edges;
    out := [];
    for i := 0 to |edges|
      invariant out == CitedBy(edges[..i], v)
    {
      assert edges[..i + 1][..i] == edges[..i];
      if edges[i].target == v && edges[i].flag == Citation {
        out := Insert(out, edges[i].source);
      }
    }
    assert edges[..|edges|] == edges;
  }

  // ----- The search, level by level -----

  /** The neighbours of `u` in the order the search meets them. */
  function Around(g: View, u: Node): seq<Node> {
    if u in g.works + g.others then CitedBy(g.edges, u) + CitesOf(g.edges, u) else []
  }

  function AroundAll(g: View, frontier: seq<Node>): seq<Node> {
    if frontier == [] then []
    else
      var n := |frontier| - 1;
      AroundAll(g, frontier[..n]) + Around(g, frontier[n])
  }

  /** The works first met after exactly `d` hops, in discovery order. */
  function Level(g: View, seeds: seq<Node>, d: nat): seq<Node>
    decreases d, 0
  {
    if d == 0 then seeds else NewOnes(AroundAll(g, Level(g, seeds, d - 1)), Reached(g, seeds, d - 1))
  }

  /** Everything met within `d` hops, in discovery order. */
  function Reached(g: View, seeds: seq<Node>, d: nat): seq<Node>
    decreases d, 1
  {
    if d == 0 then seeds else Reached(g, seeds, d - 1) + Level(g, seeds, d)
  }

  /** One more level: what the previous level meets and no level before had. */
  lemma {:induction false} NextLevel(g: View, seeds: seq<Node>, d: nat, level: seq<Node>, before: seq<Node>)
    requires level == Level(g, seeds, d) && before == Reached(g, seeds, d)
    ensures Level(g, seeds, d + 1) == NewOnes(AroundAll(g, level), before)
    ensures Reached(g, seeds, d + 1) == before + NewOnes(AroundAll(g, level), before)
  {
  }

  lemma {:induction false} NothingAfterEmpty(g: View, seeds: seq<Node>, d: nat)
    requires Level(g, seeds, d) == []
    ensures Level(g, seeds, d + 1) == [] && Reached(g, seeds, d + 1) == Reached(g, seeds, d)
  {
    var before := Reached(g, seeds, d);
    NextLevel(g, seeds, d, [], before);
    assert AroundAll(g, []) == [];
    assert NewOnes([], before) == [];
    assert before + [] == before;
  }

  /** An empty level ends the search: later levels are empty too. */
  lemma {:induction false} EmptyLevelIsFinal(g: View, seeds: seq<Node>, d: nat, e: nat)
    requires d <= e && Level(g, seeds, d) == []
    ensures Level(g, seeds, e) == [] && Reached(g, seeds, e) == Reached(g, seeds, d)
    decreases e - d
  {
    if d < e {
      NothingAfterEmpty(g, seeds, d);
      EmptyLevelIsFinal(g, seeds, d + 1, e);
    }
  }

  lemma AroundAllStep(g: View, frontier: seq<Node>, i: nat)
    requires i < |frontier|
    ensures AroundAll(g, frontier[..i + 1]) == AroundAll(g, frontier[..i]) + Around(g, frontier[i])
  {
    assert frontier[..i + 1][..i] == frontier[..i];
  }

  /** What is met so far, as a list and as a set, and its latest part. */
  ghost predicate Met(before: seq<Node>, reached: seq<Node>, seen: set<Node>, nxt: seq<Node>) {
    reached == before + nxt && forall v :: v in seen <==> v in reached
  }

  /** Meeting one more neighbour: it is added unless it is known. */
  lemma MeetOne(met: seq<Node>, before: seq<Node>, reached: seq<Node>, seen: set<Node>, nxt: seq<Node>, v: Node)
    requires nxt == NewOnes(met, before) && Met(before, reached, seen, nxt)
    ensures NewOnes(met + [v], before) == if v in seen then nxt else nxt + [v]
    ensures Met(before, reached + [v], seen + {v}, nxt + [v])
  {
    NewOnesStep(met, v, before);
    KnownIffMet(before, reached, seen, nxt, v);
    MetMore(before, reached, seen, nxt, v);
  }

  lemma KnownIffMet(before: seq<Node>, reached: seq<Node>, seen: set<Node>, nxt: seq<Node>, v: Node)
    requires Met(before, reached, seen, nxt)
    ensures v in seen <==> v in before || v in nxt
  {
  }

  lemma MetMore(before: seq<Node>, reached: seq<Node>, seen: set<Node>, nxt: seq<Node>, v: Node)
    requires Met(before, reached, seen, nxt)
    ensures Met(before, reached + [v], seen + {v}, nxt + [v])
  {
    assert reached + [v] == before + (nxt + [v]);
  }

  lemma OneFurther(met: seq<Node>, vs: seq<Node>, i: nat)
    requires i < |vs|
    ensures met + vs[..i + 1] == met + vs[..i] + [vs[i]]
  {
  }

  /** One node of a level: its neighbours not yet met are added. */
  method Visit(
      vs: seq<Node>, ghost met: seq<Node>, ghost before: seq<Node>, reached: seq<Node>, seen: set<Node>, nxt: seq<Node>)
    returns (reached': seq<Node>, seen': set<Node>, nxt': seq<Node>)
    requires nxt == NewOnes(met, before) && Met(before, reached, seen, nxt)
    ensures nxt' == NewOnes(met + vs, before) && Met(before, reached', seen', nxt')
  {
    reached', seen', nxt' := reached, seen, nxt;
    ghost var now := met;
    assert met + vs[..0] == met;
    for i := 0 to |vs|
      invariant now == met + vs[..i]
      invariant nxt' == NewOnes(now, before) && Met(before, reached', seen', nxt')
    {
      OneFurther(met, vs, i);
      MeetOne(now, before, reached', seen', nxt', vs[i]);
      if vs[i] !in seen' {
        seen' := seen' + {vs[i]};
        nxt' := nxt' + [vs[i]];
        reached' := reached' + [vs[i]];
      }
      now := now + [vs[i]];
    }
    assert vs[..|vs|] == vs;
  }

  /** One level of the search. */
  method Expand(g: View, ghost seeds: seq<Node>, ghost d: nat, reached: seq<Node>, seen: set<Node>, frontier: seq<Node>)
    returns (reached': seq<Node>, seen': set<Node>, nxt: seq<Node>)
    requires reached == Reached(g, seeds, d) && frontier == Level(g, seeds, d)
    requires Met(reached, reached, seen, [])
    ensures nxt == Level(g, seeds, d + 1) && reached' == Reached(g, seeds, d + 1)
    ensures Met(reached, reached', seen', nxt)
  {
    reached', seen', nxt := reached, seen, [];
    for i := 0 to |frontier|
      invariant nxt == NewOnes(AroundAll(g, frontier[..i]), reached)
      invariant Met(reached, reached', seen', nxt)
    {
      var citing := FindCiting(Some(g), frontier[i]);
      var cited := FindCited(Some(g), frontier[i]);
      AroundAllStep(g, frontier, i);
      reached', seen', nxt := Visit(citing + cited, AroundAll(g, frontier[..i]), reached, reached', seen', nxt);
    }
    assert frontier[..|frontier|] == frontier;
  }

  // ----- The whole answer -----

  datatype Subgraph = Subgraph(
    nodes: seq<Node>, edges: seq<(Node, Node)>, seeds: seq<Node>, unknown: seq<Node>, depth: int, coverage: real,
    engulfed: bool)

  /** The seeds without duplicates. */
  function Distinct(seeds: seq<Node>): seq<Node> {
    NewOnes(seeds, [])
  }

  function Known(g: View, seeds: seq<Node>): (known: seq<Node>)
    ensures forall v :: v in known <==> v in seeds && v in g.works
  {
    if seeds == [] then []
    else
      var n := |seeds| - 1;
      assert seeds == seeds[..n] + [seeds[n]];
      Known(g, seeds[..n]) + if seeds[n] in g.works then [seeds[n]] else []
  }

  function Unknown(g: View, seeds: seq<Node>): (unknown: seq<Node>)
    ensures forall v :: v in unknown <==> v in seeds && v !in g.works
  {
    if seeds == [] then []
    else
      var n := |seeds| - 1;
      assert seeds == seeds[..n] + [seeds[n]];
      Unknown(g, seeds[..n]) + if seeds[n] !in g.works then [seeds[n]] else []
  }

  /** An edge of the citation projection with both ends met. */
  predicate Induced(g: View, seen: seq<Node>, e: Edge) {
    e.source in g.works && e.target in g.works && e.flag != NotCitation && e.source in seen && e.target in seen
  }

  /** Pairs in the order of their first and then their second components. */
  predicate Precedes(p: (Node, Node), q: (Node, Node)) {
    p.0 < q.0 || (p.0 == q.0 && p.1 < q.1)
  }

  ghost predicate Ascending(s: seq<(Node, Node)>) {
    forall i, j :: 0 <= i < j < |s| ==> Precedes(s[i], s[j])
  }

  /** Adds `p` to a sorted list, unless it is there. */
  function InsertPair(s: seq<(Node, Node)>, p: (Node, Node)): (r: seq<(Node, Node)>)
    requires Ascending(s)
    ensures Ascending(r)
    ensures forall q :: q in r <==> q in s || q == p
  {
    if s == [] then [p]
    else
      var n := |s| - 1;
      assert s == s[..n] + [s[n]];
      if Precedes(s[n], p) then s + [p]
      else if s[n] == p then s
      else
        var r := InsertPair(s[..n], p);
        assert forall i :: 0 <= i < |r| ==> r[i] in r;
        r + [s[n]]
  }

  ghost predicate Joins(edges: seq<Edge>, g: View, seen: seq<Node>, p: (Node, Node)) {
    exists e :: e in edges && Induced(g, seen, e) && p == (e.source, e.target)
  }

  /** The pairs joined by an edge of the projection with both ends met, sorted and each once. */
  function InducedEdges(edges: seq<Edge>, g: View, seen: seq<Node>): (out: seq<(Node, Node)>)
    ensures Ascending(out)
    ensures forall p :: p in out <==> Joins(edges, g, seen, p)
  {
    if edges == [] then []
    else
      var n := |edges| - 1;
      var e := edges[n];
      assert edges == edges[..n] + [e];
      var out := InducedEdges(edges[..n], g, seen);
      if Induced(g, seen, e) then InsertPair(out, (e.source, e.target)) else out
  }

  /** The share of the projection that was met. */
  ghost function Coverage(g: View, nodes: seq<Node>): real {
    if g.works == {} then 0.0 else |Elements(nodes)| as real / |g.works| as real
  }

  lemma SearchEnds(g: View, present: seq<Node>, d: nat, hops: nat, reached: seq<Node>)
    requires d <= hops && Level(g, present, d) == [] && reached == Reached(g, present, d)
    ensures reached == Reached(g, present, hops)
  {
    EmptyLevelIsFinal(g, present, d, hops);
  }

  method Search(g: View, present: seq<Node>, hops: nat) returns (reached: seq<Node>, seen: set<Node>)
    ensures reached == Reached(g, present, hops)
    ensures forall v :: v in seen <==> v in reached
  {
    reached := present;
    seen := set v | v in present;
    var frontier := present;
    for d := 0 to hops
      invariant reached == Reached(g, present, d) && frontier == Level(g, present, d)
      invariant Met(reached, reached, seen, [])
    {
      var nxt;
      reached, seen, nxt := Expand(g, present, d, reached, seen, frontier);
      if nxt == [] {
        SearchEnds(g, present, d + 1, hops, reached);
        break;
      }
      frontier := nxt;
    }
  }

  method Neighborhood(g: Option<View>, asked: seq<Node>, depth: int) returns (r: Subgraph)
    ensures r.depth == depth
    ensures g.None? ==> r == Subgraph([], [], [], Distinct(asked), depth, 0.0, false)
    ensures g.Some? ==> r.seeds == Known(g.value, Distinct(asked)) && r.unknown == Unknown(g.value, Distinct(asked))
    ensures g.Some? ==> r.nodes == Reached(g.value, r.seeds, NonNegative(depth))
    ensures g.Some? ==> Ascending(r.edges)
    ensures g.Some? ==> forall p :: p in r.edges <==> Joins(g.value.edges, g.value, r.nodes, p)
    ensures g.Some? ==> r.coverage == Coverage(g.value, r.nodes)
    ensures r.engulfed <==> r.coverage >= 0.8
  {
    var seeds := Distinct(asked);
    if g.None? {
      return Subgraph([], [], [], seeds, depth, 0.0, false);
    }
    var present := Known(g.value, seeds);
    var reached, seen := Search(g.value, present, NonNegative(depth));
    assert seen == Elements(reached);
    var edges := InducedEdges(g.value.edges, g.value, reached);
    var coverage := if g.value.works != {} then |seen| as real / |g.value.works| as real else 0.0;
    return Subgraph(reached, edges, present, Unknown(g.value, seeds), depth, coverage, coverage >= 0.8);
  }
}
