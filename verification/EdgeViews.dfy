// citation/edges.py: the two computed views over the stored edges of one run, the authoritative
// edge per (source, target) and the pairs on which provenances overlap.
module EdgeViews {
  import opened CitationTables

  datatype Pair = Pair(source: WorkId, target: WorkId)
  datatype Disagreement = Disagreement(provenances: set<Provenance>, winner: Provenance)

  /** PROVENANCE_AUTHORITY. */
  function Rank(p: Provenance): nat {
    match p
    case ManualOverride => 2
    case ParsedBibliography => 1
    case ProviderReference => 0
  }

  predicate InRun(k: EdgeKey, run: RunId, p: Pair) {
    k.run == run && k.source == p.source && k.target == p.target
  }

  /** `k` is stored under `run` and no edge of its pair in that run has more authority. */
  ghost predicate Authoritative(edges: set<EdgeKey>, run: RunId, p: Pair, k: EdgeKey) {
    && k in edges && InRun(k, run, p)
    && forall e :: e in edges && InRun(e, run, p) ==> Rank(e.provenance) <= Rank(k.provenance)
  }

  lemma AuthoritativeIsUnique(edges: set<EdgeKey>, run: RunId, p: Pair, k: EdgeKey, e: EdgeKey)
    requires Authoritative(edges, run, p, k) && Authoritative(edges, run, p, e)
    ensures k == e
  {
    assert Rank(k.provenance) == Rank(e.provenance);
  }

  /** One row per cited pair of the run, and that row is the pair's authoritative edge. */
  method AuthoritativeEdges(edges: set<EdgeKey>, run: RunId) returns (best: map<Pair, EdgeKey>)
    ensures forall k :: k in edges && k.run == run ==> Pair(k.source, k.target) in best
    ensures forall p :: p in best ==> Authoritative(edges, run, p, best[p])
  {
    best := map[];
    var rows := set k | k in edges && k.run == run;
    var todo := rows;
    while todo != {}
      invariant todo <= rows
      invariant forall k :: k in rows - todo ==> Pair(k.source, k.target) in best
      invariant forall p :: p in best ==> best[p] in rows - todo && InRun(best[p], run, p)
      invariant forall k :: k in rows - todo ==> Rank(k.provenance) <= Rank(best[Pair(k.source, k.target)].provenance)
    {
      var k :| k in todo;
      var p := Pair(k.source, k.target);
      if p !in best || Rank(k.provenance) > Rank(best[p].provenance) {
        best := best[p := k];
      }
      todo := todo - {k};
    }
    forall p | p in best
      ensures Authoritative(edges, run, p, best[p])
    {
      forall e | e in edges && InRun(e, run, p)
        ensures Rank(e.provenance) <= Rank(best[p].provenance)
      {
        assert e in rows && p == Pair(e.source, e.target);
      }
    }
  }

  function ProvenancesOf(edges: set<EdgeKey>, run: RunId, p: Pair): set<Provenance> {
    set k | k in edges && InRun(k, run, p) :: k.provenance
  }

  /** max(provenances, key = authority). */
  method Strongest(provenances: set<Provenance>) returns (winner: Provenance)
    requires provenances != {}
    ensures winner in provenances && forall q :: q in provenances ==> Rank(q) <= Rank(winner)
  {
    winner :| winner in provenances;
    var todo := provenances;
    while todo != {}
      invariant todo <= provenances && winner in provenances
      invariant forall q :: q in provenances - todo ==> Rank(q) <= Rank(winner)
    {
      var q :| q in todo;
      if Rank(q) > Rank(winner) {
        winner := q;
      }
      todo := todo - {q};
    }
  }

  /** Exactly the pairs of the run that carry two or more provenances, each with all of them and a
      winner; the winner is the provenance of the pair's authoritative edge. */
  method EdgeDisagreements(edges: set<EdgeKey>, run: RunId) returns (found: map<Pair, Disagreement>)
    ensures forall p :: p in found <==> |ProvenancesOf(edges, run, p)| > 1
    ensures forall p :: p in found ==> found[p].provenances == ProvenancesOf(edges, run, p)
    ensures forall p :: p in found ==>
              Authoritative(edges, run, p, EdgeKey(p.source, p.target, found[p].winner, run))
  {
    found := map[];
    var pairs := set k | k in edges && k.run == run :: Pair(k.source, k.target);
    var todo := pairs;
    while todo != {}
      invariant todo <= pairs
      invariant forall p :: p in found <==> p in pairs - todo && |ProvenancesOf(edges, run, p)| > 1
      invariant forall p :: p in found ==> found[p].provenances == ProvenancesOf(edges, run, p)
      invariant forall p :: p in found ==>
                  Authoritative(edges, run, p, EdgeKey(p.source, p.target, found[p].winner, run))
    {
      var p :| p in todo;
      var provenances := ProvenancesOf(edges, run, p);
      if |provenances| > 1 {
        var winner := Strongest(provenances);
        WinnerIsAuthoritative(edges, run, p, winner);
        found := found[p := Disagreement(provenances, winner)];
      }
      todo := todo - {p};
    }
    forall p | |ProvenancesOf(edges, run, p)| > 1
      ensures p in found
    {
      var q :| q in ProvenancesOf(edges, run, p);
      var k :| k in edges && InRun(k, run, p) && k.provenance == q;
      assert p == Pair(k.source, k.target) && p in pairs;
    }
  }

  lemma WinnerIsAuthoritative(edges: set<EdgeKey>, run: RunId, p: Pair, winner: Provenance)
    requires winner in ProvenancesOf(edges, run, p)
    requires forall q :: q in ProvenancesOf(edges, run, p) ==> Rank(q) <= Rank(winner)
    ensures Authoritative(edges, run, p, EdgeKey(p.source, p.target, winner, run))
  {
    var k :| k in edges && InRun(k, run, p) && k.provenance == winner;
    assert k == EdgeKey(p.source, p.target, winner, run);
    forall e | e in edges && InRun(e, run, p)
      ensures Rank(e.provenance) <= Rank(winner)
    {
      assert e.provenance in ProvenancesOf(edges, run, p);
    }
  }

  /** The two views agree: on a disputed pair the disagreement winner is the authoritative provenance. */
  lemma ViewsAgree(edges: set<EdgeKey>, run: RunId, p: Pair, best: EdgeKey, winner: Provenance)
    requires Authoritative(edges, run, p, best)
    requires Authoritative(edges, run, p, EdgeKey(p.source, p.target, winner, run))
    ensures winner == best.provenance
  {
    AuthoritativeIsUnique(edges, run, p, best, EdgeKey(p.source, p.target, winner, run));
  }

  /** A parsed edge of the run outranks the provider edge of the same pair, and a manual override outranks both. */
  lemma AuthorityLadder(edges: set<EdgeKey>, run: RunId, p: Pair, best: EdgeKey)
    requires Authoritative(edges, run, p, best)
    ensures best.provenance == ManualOverride <==> EdgeKey(p.source, p.target, ManualOverride, run) in edges
    ensures best.provenance == ParsedBibliography <==>
              (EdgeKey(p.source, p.target, ManualOverride, run) !in edges &&
               EdgeKey(p.source, p.target, ParsedBibliography, run) in edges)
  {
    assert best == EdgeKey(p.source, p.target, best.provenance, run);
    var manual := EdgeKey(p.source, p.target, ManualOverride, run);
    var parsed := EdgeKey(p.source, p.target, ParsedBibliography, run);
    assert InRun(manual, run, p) && InRun(parsed, run, p);
  }
}
